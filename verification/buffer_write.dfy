/** __block_write_full_page, its recovery path and its completion handler, as interleavings of atomic steps. */
module BufferWrite {
  import opened Common

  datatype Io = Quiet | Flying | Flagged | Ended

  /** `other`: locked by someone else. */
  datatype Buf = Buf(mapped: bool, dirty: bool, uptodate: bool, async: bool, locked: bool, other: bool, io: Io)

  datatype Phase = Mapping | Locking | Recovering | Submitting | Done

  /**
    `marks`: the buffers marked for writing so far; `closing`: a completion has
    found nothing left and goes on to end_page_writeback; `ends`: how often that
    was called.
  */
  datatype State = State(
    bufs: seq<Buf>,
    phase: Phase,
    at: nat,
    recovering: bool,
    marks: set<nat>,
    underway: nat,
    error: bool,
    pageUptodate: bool,
    writeback: bool,
    closing: bool,
    ends: nat)

  datatype Step =
    | Map(beyond: bool, fails: bool)   // one turn of the mapping loop
    | EndMap
    | Lock(nonblocking: bool)          // one turn of the locking loop
    | Recover                          // one turn of the recovery loop
    | BeginWriteback                   // set_page_writeback, unlock_page
    | Submit                           // one turn of the submitting loop
    | EndSubmit                        // `done:`
    | IoDone(i: nat, ok: bool)         // end_buffer_async_write up to the spinlock
    | Finish(i: nat)                   // ... the section under it
    | Close                            // ... and end_page_writeback, by the one that found nothing left
    | Dirty(i: nat, now: bool)         // someone else dirties or cleans a buffer
    | OtherLock(i: nat)
    | OtherUnlock(i: nat)

  function Init(bufs: seq<Buf>, error: bool): State {
    State(bufs, Mapping, 0, false, {}, 0, error, false, false, false, 0)
  }

  ghost predicate Clean(bufs: seq<Buf>) {
    forall i :: 0 <= i < |bufs| ==> !bufs[i].async && !bufs[i].locked && bufs[i].io == Quiet
  }

  predicate Here(s: State, phase: Phase) {
    s.phase == phase && s.at < |s.bufs|
  }

  predicate Enabled(s: State, t: Step) {
    match t
    case Map(_, _) => Here(s, Mapping)
    case EndMap => s.phase.Mapping? && s.at == |s.bufs|
    case Lock(nonblocking) => Here(s, Locking) && (s.bufs[s.at].mapped && s.bufs[s.at].other ==> nonblocking)
    case Recover => Here(s, Recovering) && (s.bufs[s.at].mapped && s.bufs[s.at].dirty ==> !s.bufs[s.at].other)
    case BeginWriteback => (s.phase.Locking? || s.phase.Recovering?) && s.at == |s.bufs|
    case Submit => Here(s, Submitting)
    case EndSubmit => s.phase.Submitting? && s.at == |s.bufs|
    case IoDone(i, _) => i < |s.bufs| && s.bufs[i].io.Flying?
    case Finish(i) => i < |s.bufs| && s.bufs[i].io.Flagged?
    case Close => s.closing
    case Dirty(i, _) => i < |s.bufs|
    case OtherLock(i) => i < |s.bufs| && !s.bufs[i].locked && !s.bufs[i].other
    case OtherUnlock(i) => i < |s.bufs| && s.bufs[i].other
  }

  predicate NoneAsync(bufs: seq<Buf>) {
    forall i :: 0 <= i < |bufs| ==> !bufs[i].async
  }

  predicate AllUptodate(bufs: seq<Buf>) {
    forall i :: 0 <= i < |bufs| ==> bufs[i].uptodate
  }

  function Put(s: State, i: nat, b: Buf): State
    requires i < |s.bufs|
  {
    s.(bufs := s.bufs[i := b])
  }

  function MarkHere(s: State, b: Buf): State
    requires s.at < |s.bufs|
  {
    Put(s, s.at, b.(async := true, locked := true)).(marks := s.marks + {s.at}, at := s.at + 1)
  }

  function Apply(s: State, t: Step): State
    requires Enabled(s, t)
  {
    match t
    case Map(beyond, fails) =>
      var b := s.bufs[s.at];
      if beyond then Put(s, s.at, b.(dirty := false, uptodate := true)).(at := s.at + 1)
      else if b.mapped || !b.dirty then s.(at := s.at + 1)
      else if fails then s.(phase := Recovering, recovering := true, at := 0)
      else Put(s, s.at, b.(mapped := true)).(at := s.at + 1)
    case EndMap => s.(phase := Locking, at := 0)
    case Lock(_) =>
      var b := s.bufs[s.at];
      if b.mapped && !b.other && b.dirty then MarkHere(s, b.(dirty := false)) else s.(at := s.at + 1)
    case Recover =>
      var b := s.bufs[s.at];
      if b.mapped && b.dirty then MarkHere(s, b) else Put(s, s.at, b.(dirty := false)).(at := s.at + 1)
    case BeginWriteback => s.(phase := Submitting, at := 0, writeback := true, error := s.error || s.recovering)
    case Submit =>
      var b := s.bufs[s.at];
      if b.async then
        Put(s, s.at, b.(io := Flying, dirty := b.dirty && !s.recovering)).(underway := s.underway + 1, at := s.at + 1)
      else s.(at := s.at + 1)
    case EndSubmit =>
      if s.underway == 0 then
        s.(phase := Done, pageUptodate := s.pageUptodate || AllUptodate(s.bufs), writeback := false, ends := s.ends + 1)
      else s.(phase := Done)
    case IoDone(i, ok) => Put(s, i, s.bufs[i].(uptodate := ok, io := Flagged)).(error := s.error || !ok)
    case Finish(i) =>
      var s' := Put(s, i, s.bufs[i].(async := false, locked := false, io := Ended));
      s'.(closing := s.closing || NoneAsync(s'.bufs))
    case Close => s.(closing := false, writeback := false, ends := s.ends + 1)
    case Dirty(i, now) => Put(s, i, s.bufs[i].(dirty := now))
    case OtherLock(i) => Put(s, i, s.bufs[i].(other := true))
    case OtherUnlock(i) => Put(s, i, s.bufs[i].(other := false))
  }

  // ------------------------------------------------------------------
  // Invariant
  // ------------------------------------------------------------------

  ghost predicate BufOk(s: State, i: nat) {
    && i < |s.bufs|
    && s.bufs[i].locked == s.bufs[i].async
    && (i !in s.marks ==> !s.bufs[i].async && s.bufs[i].io == Quiet)
    && (i in s.marks ==>
         match s.phase
         case Mapping => false
         case Locking => i < s.at && s.bufs[i].async && s.bufs[i].io == Quiet
         case Recovering => i < s.at && s.bufs[i].async && s.bufs[i].io == Quiet
         case Submitting => s.bufs[i].async == !s.bufs[i].io.Ended? && s.bufs[i].io.Quiet? == (i >= s.at)
         case Done => s.bufs[i].async == !s.bufs[i].io.Ended? && !s.bufs[i].io.Quiet?)
  }

  ghost predicate BufsOk(s: State) {
    forall i {:trigger BufOk(s, i)} :: 0 <= i < |s.bufs| ==> BufOk(s, i)
  }

  ghost predicate AllEnded(s: State) {
    s.marks != {} && forall i <- s.marks :: i < |s.bufs| && s.bufs[i].io.Ended?
  }

  /** Some marked buffer has been passed by the submitting loop. */
  ghost predicate Passed(s: State) {
    exists i :: i in s.marks && i < s.at
  }

  predicate Begun(s: State) {
    s.phase.Submitting? || s.phase.Done?
  }

  ghost predicate PageOk(s: State) {
    && s.at <= |s.bufs| && (s.phase.Done? ==> s.at == |s.bufs|)
    && (forall i <- s.marks :: i < |s.bufs|)
    && (Begun(s) ==> (s.underway > 0 <==> Passed(s)))
    && (!Begun(s) ==> s.underway == 0)
    && s.ends + (if s.closing then 1 else 0) == (if (s.phase.Done? && s.marks == {}) || AllEnded(s) then 1 else 0)
    && (s.writeback <==> Begun(s) && s.ends == 0)
  }

  ghost predicate Inv(s: State) {
    BufsOk(s) && PageOk(s)
  }

  lemma InitInv(bufs: seq<Buf>, error: bool)
    requires Clean(bufs)
    ensures Inv(Init(bufs, error))
  {}

  lemma NotAllEnded(s: State, i: nat)
    requires i in s.marks && i < |s.bufs| && !s.bufs[i].io.Ended?
    ensures !AllEnded(s)
  {}

  lemma NothingEnded(s: State)
    requires BufsOk(s) && !Begun(s) && forall i <- s.marks :: i < |s.bufs|
    ensures !AllEnded(s)
  {
    if s.marks != {} {
      var i :| i in s.marks;
      assert BufOk(s, i);
    }
  }

  lemma MapKeeps(s: State, t: Step)
    requires Inv(s) && Enabled(s, t) && (t.Map? || t.EndMap?)
    ensures Inv(Apply(s, t))
  {
    hide AllEnded, Passed;
    var s' := Apply(s, t);
    forall i | 0 <= i < |s'.bufs| ensures BufOk(s', i) {
      assert BufOk(s, i);
    }
    NothingEnded(s);
    NothingEnded(s');
  }

  lemma PassKeeps(s: State, b: Buf)
    requires Inv(s) && (Here(s, Locking) || Here(s, Recovering)) && b == s.bufs[s.at].(dirty := b.dirty)
    ensures Inv(Put(s, s.at, b).(at := s.at + 1))
  {
    hide AllEnded, Passed;
    var s' := Put(s, s.at, b).(at := s.at + 1);
    forall i | 0 <= i < |s'.bufs| ensures BufOk(s', i) {
      assert BufOk(s, i);
    }
    NothingEnded(s);
    NothingEnded(s');
  }

  lemma MarkKeeps(s: State, b: Buf)
    requires Inv(s) && (Here(s, Locking) || Here(s, Recovering)) && b == s.bufs[s.at].(dirty := b.dirty)
    ensures Inv(MarkHere(s, b))
  {
    hide AllEnded, Passed;
    var s' := MarkHere(s, b);
    forall i | 0 <= i < |s'.bufs| ensures BufOk(s', i) {
      assert BufOk(s, i);
    }
    NothingEnded(s);
    NothingEnded(s');
  }

  lemma LockKeeps(s: State, t: Step)
    requires Inv(s) && Enabled(s, t) && (t.Lock? || t.Recover?)
    ensures Inv(Apply(s, t))
  {
    hide Inv;
    var b := s.bufs[s.at];
    assert s.bufs[s.at := b] == s.bufs;
    PassKeeps(s, b);
    PassKeeps(s, b.(dirty := false));
    MarkKeeps(s, b);
    MarkKeeps(s, b.(dirty := false));
  }

  lemma BeginKeeps(s: State)
    requires Inv(s) && Enabled(s, BeginWriteback)
    ensures Inv(Apply(s, BeginWriteback))
  {
    hide AllEnded;
    var s' := Apply(s, BeginWriteback);
    forall i | 0 <= i < |s'.bufs| ensures BufOk(s', i) {
      assert BufOk(s, i);
    }
    NothingEnded(s);
    if s.marks != {} {
      var i :| i in s.marks;
      assert BufOk(s, i);
      NotAllEnded(s', i);
    } else {
      NoMarks(s');
    }
  }

  lemma NoMarks(s: State)
    requires s.marks == {}
    ensures !AllEnded(s)
  {}

  lemma SubmitKeeps(s: State)
    requires Inv(s) && Enabled(s, Submit)
    ensures Inv(Apply(s, Submit))
  {
    hide AllEnded, Passed;
    var s' := Apply(s, Submit);
    assert BufOk(s, s.at);
    forall i | 0 <= i < |s'.bufs| ensures BufOk(s', i) {
      assert BufOk(s, i);
    }
    assert s.at in s.marks <==> s.bufs[s.at].async;
    PassedStep(s, s');
    if s.at in s.marks {
      NotAllEnded(s, s.at);
      NotAllEnded(s', s.at);
    } else {
      SameEnded(s, s');
    }
  }

  lemma PassedStep(s: State, s': State)
    requires s'.marks == s.marks && s'.at == s.at + 1
    ensures Passed(s') <==> Passed(s) || s.at in s.marks
  {}

  lemma SameEnded(s: State, s': State)
    requires s'.marks == s.marks && |s'.bufs| == |s.bufs|
    requires forall i <- s.marks :: i < |s.bufs| && s'.bufs[i].io == s.bufs[i].io
    ensures AllEnded(s') <==> AllEnded(s)
  {}

  /** The submitter ends the writeback itself exactly if it marked nothing. */
  lemma EndKeeps(s: State)
    requires Inv(s) && Enabled(s, EndSubmit)
    ensures Inv(Apply(s, EndSubmit))
  {
    hide AllEnded;
    var s' := Apply(s, EndSubmit);
    forall i | 0 <= i < |s'.bufs| ensures BufOk(s', i) {
      assert BufOk(s, i);
    }
    SameEnded(s, s');
    if s.marks == {} {
      NoMarks(s);
    } else {
      var i :| i in s.marks;
      assert i < s.at;
    }
  }

  lemma IoKeeps(s: State, t: Step)
    requires Inv(s) && Enabled(s, t) && (t.IoDone? || t.Dirty? || t.OtherLock? || t.OtherUnlock?)
    ensures Inv(Apply(s, t))
  {
    hide AllEnded, Passed;
    var s' := Apply(s, t);
    assert BufOk(s, t.i);
    forall i | 0 <= i < |s'.bufs| ensures BufOk(s', i) {
      assert BufOk(s, i);
    }
    SamePassed(s, s');
    if t.IoDone? {
      NotAllEnded(s, t.i);
      NotAllEnded(s', t.i);
    } else {
      SameEnded(s, s');
    }
  }

  lemma SamePassed(s: State, s': State)
    requires s'.marks == s.marks && s'.at == s.at
    ensures Passed(s') <==> Passed(s)
  {}

  lemma NoneAsyncIs(s: State)
    requires BufsOk(s) && Begun(s) && s.marks != {} && forall i <- s.marks :: i < |s.bufs|
    ensures NoneAsync(s.bufs) <==> AllEnded(s)
  {
    forall i <- s.marks ensures s.bufs[i].async == !s.bufs[i].io.Ended? {
      assert BufOk(s, i);
    }
    if AllEnded(s) {
      forall i | 0 <= i < |s.bufs| ensures !s.bufs[i].async {
        assert BufOk(s, i);
      }
    }
  }

  lemma FinishKeeps(s: State, x: nat)
    requires Inv(s) && Enabled(s, Finish(x))
    ensures Inv(Apply(s, Finish(x)))
  {
    hide AllEnded, Passed;
    var s' := Apply(s, Finish(x));
    assert BufOk(s, x);
    forall i | 0 <= i < |s'.bufs| ensures BufOk(s', i) {
      assert BufOk(s, i);
    }
    SamePassed(s, s');
    NoneAsyncIs(s');
    NotAllEnded(s, x);
  }

  lemma CloseKeeps(s: State)
    requires Inv(s) && Enabled(s, Close)
    ensures Inv(Apply(s, Close))
  {
    hide AllEnded, Passed;
    var s' := Apply(s, Close);
    forall i | 0 <= i < |s'.bufs| ensures BufOk(s', i) {
      assert BufOk(s, i);
    }
    SamePassed(s, s');
    SameEnded(s, s');
  }

  lemma StepKeepsInv(s: State, t: Step)
    requires Inv(s) && Enabled(s, t)
    ensures Inv(Apply(s, t))
  {
    hide Inv, Enabled, Apply;
    match t
    case BeginWriteback => BeginKeeps(s);
    case Submit => SubmitKeeps(s);
    case EndSubmit => EndKeeps(s);
    case Finish(i) => FinishKeeps(s, i);
    case Close => CloseKeeps(s);
    case IoDone(_, _) => IoKeeps(s, t);
    case Dirty(_, _) => IoKeeps(s, t);
    case OtherLock(_) => IoKeeps(s, t);
    case OtherUnlock(_) => IoKeeps(s, t);
    case Map(_, _) => MapKeeps(s, t);
    case EndMap => MapKeeps(s, t);
    case _ => LockKeeps(s, t);
  }

  ghost predicate Reaches(s: State, run: seq<Step>, s': State)
    decreases |run|
  {
    if run == [] then s == s'
    else Enabled(s, run[0]) && Reaches(Apply(s, run[0]), run[1..], s')
  }

  lemma {:induction false} RunKeepsInv(s: State, run: seq<Step>, s': State)
    requires Inv(s) && Reaches(s, run, s')
    ensures Inv(s')
    decreases |run|
  {
    hide Inv, Apply, Enabled;
    if run != [] {
      StepKeepsInv(s, run[0]);
      RunKeepsInv(Apply(s, run[0]), run[1..], s');
    }
  }

  /**
    end_page_writeback is called at most once, on the ordinary path and on the
    recovery path alike, only while the page is under writeback, and only
    after every marked buffer was submitted and has ended.
  */
  lemma EndedOnce(bufs: seq<Buf>, error: bool, run: seq<Step>, s: State)
    requires Clean(bufs) && Reaches(Init(bufs, error), run, s)
    ensures s.ends <= 1 && (s.writeback <==> Begun(s) && s.ends == 0)
    ensures s.ends == 1 || s.closing ==> NoneAsync(s.bufs) && forall i <- s.marks :: i < |s.bufs| && s.bufs[i].io.Ended?
  {
    InitInv(bufs, error);
    RunKeepsInv(Init(bufs, error), run, s);
    if s.ends == 1 || s.closing {
      forall i | 0 <= i < |s.bufs| ensures !s.bufs[i].async {
        assert BufOk(s, i);
      }
    }
  }

  /** With the submitter done and no I/O outstanding the writeback has ended, or is about to. */
  lemma NeverForgotten(bufs: seq<Buf>, error: bool, run: seq<Step>, s: State)
    requires Clean(bufs) && Reaches(Init(bufs, error), run, s) && s.phase.Done?
    requires forall i :: 0 <= i < |s.bufs| ==> !s.bufs[i].io.Flying? && !s.bufs[i].io.Flagged?
    ensures s.ends + (if s.closing then 1 else 0) == 1 && (s.writeback <==> s.closing)
  {
    InitInv(bufs, error);
    RunKeepsInv(Init(bufs, error), run, s);
    forall i <- s.marks ensures i < |s.bufs| && s.bufs[i].io.Ended? {
      assert BufOk(s, i);
    }
  }

  /**
    The error flag is set by a failed write, by the failure that led to
    recovery, and by nothing else; and it stays.  The page becomes up to date
    only if nothing had to be written and all its buffers are.
  */
  lemma ErrorStays(s: State, t: Step)
    requires Inv(s) && Enabled(s, t)
    ensures Apply(s, t).error <==> s.error || (t.IoDone? && !t.ok) || (t.BeginWriteback? && s.recovering)
    ensures Apply(s, t).pageUptodate <==> s.pageUptodate || (t.EndSubmit? && s.marks == {} && AllUptodate(s.bufs))
  {
    hide BufsOk, AllEnded, AllUptodate, NoneAsync;
    if t.EndSubmit? {
      NothingUnderway(s);
    }
  }

  /** The buffer a step may change, if any. */
  function Target(s: State, t: Step): Option<nat> {
    match t
    case Map(_, _) => Some(s.at)
    case Lock(_) => Some(s.at)
    case Recover => Some(s.at)
    case Submit => Some(s.at)
    case IoDone(i, _) => Some(i)
    case Finish(i) => Some(i)
    case Dirty(i, _) => Some(i)
    case OtherLock(i) => Some(i)
    case OtherUnlock(i) => Some(i)
    case _ => None
  }

  /** What a step does to buffer i: nothing unless it is the target; then only some steps touch its io or uptodate. */
  ghost predicate Touches(s: State, t: Step, s': State, i: nat) {
    && i < |s.bufs| == |s'.bufs|
    && (Target(s, t) != Some(i) ==> s'.bufs[i] == s.bufs[i])
    && (!t.Submit? && !t.IoDone? && !t.Finish? ==> s'.bufs[i].io == s.bufs[i].io)
    && (s'.bufs[i].uptodate <==>
         if t.IoDone? && i == t.i then t.ok else s.bufs[i].uptodate || (t.Map? && t.beyond && i == s.at))
  }

  lemma MapTouches(s: State, beyond: bool, fails: bool, i: nat)
    requires Enabled(s, Map(beyond, fails)) && i < |s.bufs|
    ensures Touches(s, Map(beyond, fails), Apply(s, Map(beyond, fails)), i)
  {}

  lemma LockTouches(s: State, nonblocking: bool, i: nat)
    requires Enabled(s, Lock(nonblocking)) && i < |s.bufs|
    ensures Touches(s, Lock(nonblocking), Apply(s, Lock(nonblocking)), i)
  {}

  lemma RecoverTouches(s: State, i: nat)
    requires Enabled(s, Recover) && i < |s.bufs|
    ensures Touches(s, Recover, Apply(s, Recover), i)
  {}

  lemma SubmitTouches(s: State, i: nat)
    requires Enabled(s, Submit) && i < |s.bufs|
    ensures Touches(s, Submit, Apply(s, Submit), i)
  {}

  lemma IoDoneTouches(s: State, k: nat, ok: bool, i: nat)
    requires Enabled(s, IoDone(k, ok)) && i < |s.bufs|
    ensures Touches(s, IoDone(k, ok), Apply(s, IoDone(k, ok)), i)
  {}

  lemma FinishTouches(s: State, k: nat, i: nat)
    requires Enabled(s, Finish(k)) && i < |s.bufs|
    ensures Touches(s, Finish(k), Apply(s, Finish(k)), i)
  {
    hide NoneAsync;
  }

  lemma OtherTouches(s: State, t: Step, i: nat)
    requires Enabled(s, t) && i < |s.bufs| && (t.Dirty? || t.OtherLock? || t.OtherUnlock?)
    ensures Touches(s, t, Apply(s, t), i)
  {}

  lemma PhaseTouches(s: State, t: Step, i: nat)
    requires Enabled(s, t) && i < |s.bufs| && (t.EndMap? || t.BeginWriteback? || t.EndSubmit? || t.Close?)
    ensures Touches(s, t, Apply(s, t), i)
  {
    hide AllUptodate;
  }

  lemma StepTouches(s: State, t: Step, i: nat)
    requires Enabled(s, t) && i < |s.bufs|
    ensures Touches(s, t, Apply(s, t), i)
  {
    hide Apply, Enabled, Touches;
    match t
    case Map(beyond, fails) => MapTouches(s, beyond, fails, i);
    case Lock(nonblocking) => LockTouches(s, nonblocking, i);
    case Recover => RecoverTouches(s, i);
    case Submit => SubmitTouches(s, i);
    case IoDone(k, ok) => IoDoneTouches(s, k, ok, i);
    case Finish(k) => FinishTouches(s, k, i);
    case Dirty(_, _) => OtherTouches(s, t, i);
    case OtherLock(_) => OtherTouches(s, t, i);
    case OtherUnlock(_) => OtherTouches(s, t, i);
    case _ => PhaseTouches(s, t, i);
  }

  /** A buffer is up to date as its last write says, or because it was found beyond the end of the file. */
  lemma UptodateAs(s: State, t: Step, i: nat)
    requires Enabled(s, t) && i < |s.bufs|
    ensures i < |Apply(s, t).bufs|
    ensures Apply(s, t).bufs[i].uptodate <==>
      if t.IoDone? && i == t.i then t.ok else s.bufs[i].uptodate || (t.Map? && t.beyond && i == s.at)
  {
    hide Apply, Enabled;
    StepTouches(s, t, i);
  }

  lemma NothingUnderway(s: State)
    requires Inv(s) && s.phase.Submitting? && s.at == |s.bufs|
    ensures s.underway == 0 <==> s.marks == {}
  {
    hide BufsOk, AllEnded;
    if s.marks != {} {
      var i :| i in s.marks;
      assert i < s.at;
    }
  }

  // ------------------------------------------------------------------
  // What is written
  // ------------------------------------------------------------------

  /** Nobody else touches the buffers; which lie beyond the end of the file, and which cannot be mapped, is given. */
  predicate Undisturbed(s: State, t: Step, beyond: nat -> bool, fails: nat -> bool) {
    match t
    case Dirty(_, _) => false
    case OtherLock(_) => false
    case OtherUnlock(_) => false
    case Map(b, f) => b == beyond(s.at) && f == fails(s.at)
    case _ => true
  }

  ghost predicate RunsAlone(s: State, run: seq<Step>, s': State, beyond: nat -> bool, fails: nat -> bool)
    decreases |run|
  {
    if run == [] then s == s'
    else
      && Enabled(s, run[0]) && Undisturbed(s, run[0], beyond, fails)
      && RunsAlone(Apply(s, run[0]), run[1..], s', beyond, fails)
  }

  /** A buffer at which the mapping loop gives up. */
  predicate Stops(b0: seq<Buf>, beyond: nat -> bool, fails: nat -> bool, i: nat)
    requires i < |b0|
  {
    !beyond(i) && !b0[i].mapped && b0[i].dirty && fails(i)
  }

  /** The first of them from i on, or the number of buffers. */
  function StopFrom(b0: seq<Buf>, beyond: nat -> bool, fails: nat -> bool, i: nat): (k: nat)
    requires i <= |b0|
    ensures i <= k <= |b0| && (k < |b0| ==> Stops(b0, beyond, fails, k))
    ensures forall j :: i <= j < k ==> !Stops(b0, beyond, fails, j)
    decreases |b0| - i
  {
    if i == |b0| || Stops(b0, beyond, fails, i) then i else StopFrom(b0, beyond, fails, i + 1)
  }

  /**
    The buffers a page is written for.  Ordinarily: those that were dirty,
    within the file, and not locked by others.  In recovery from a failure at
    `stop`: those dirty within the file before it, and from there on those
    dirty that had been mapped all along.
  */
  predicate Wanted(b0: seq<Buf>, beyond: nat -> bool, stop: nat, i: nat)
    requires i < |b0|
  {
    && b0[i].dirty
    && (if stop == |b0| then !beyond(i) && !b0[i].other else if i < stop then !beyond(i) else b0[i].mapped)
  }

  /** Whether the loop of the phase has passed buffer i. */
  predicate Behind(s: State, i: nat) {
    Begun(s) || (!s.phase.Mapping? && i < s.at)
  }

  /** Whether buffer i is dirty, in every phase. */
  predicate DirtyNow(s: State, b0: seq<Buf>, beyond: nat -> bool, stop: nat, i: nat)
    requires i < |b0|
  {
    var left := b0[i].dirty && !((if s.phase.Mapping? then i < s.at else i < stop) && beyond(i));
    if s.phase.Mapping? then left
    else if stop == |b0| then left && !(Behind(s, i) && Wanted(b0, beyond, stop, i))
    else if s.phase.Recovering? then (if i < s.at then Wanted(b0, beyond, stop, i) else left)
    else Wanted(b0, beyond, stop, i) && s.phase.Submitting? && i >= s.at
  }

  ghost predicate TrackedAt(s: State, b0: seq<Buf>, beyond: nat -> bool, stop: nat, i: nat) {
    && i < |b0| == |s.bufs|
    && s.bufs[i].other == b0[i].other
    && s.bufs[i].mapped == (b0[i].mapped ||
                              ((if s.phase.Mapping? then i < s.at else i < stop) && b0[i].dirty && !beyond(i)))
    && s.bufs[i].dirty == DirtyNow(s, b0, beyond, stop, i)
    && (i in s.marks <==> Behind(s, i) && Wanted(b0, beyond, stop, i))
  }

  ghost predicate Tracked(s: State, b0: seq<Buf>, beyond: nat -> bool, stop: nat) {
    && |s.bufs| == |b0| && stop <= |b0|
    && (s.phase.Mapping? ==> !s.recovering && s.at <= stop)
    && (s.phase.Locking? ==> stop == |b0|) && (s.phase.Recovering? ==> stop < |b0|)
    && (!s.phase.Mapping? ==> (s.recovering <==> stop < |b0|))
    && forall i {:trigger TrackedAt(s, b0, beyond, stop, i)} :: 0 <= i < |b0| ==> TrackedAt(s, b0, beyond, stop, i)
  }

  lemma MapTrackedAt(s: State, b0: seq<Buf>, beyond: nat -> bool, fails: nat -> bool, stop: nat, i: nat)
    requires Here(s, Mapping) && |s.bufs| == |b0| && s.at <= stop
    requires s.at == stop <==> Stops(b0, beyond, fails, s.at)
    requires TrackedAt(s, b0, beyond, stop, s.at) && TrackedAt(s, b0, beyond, stop, i)
    ensures TrackedAt(Apply(s, Map(beyond(s.at), fails(s.at))), b0, beyond, stop, i)
  {
    hide Wanted;
    MapTouches(s, beyond(s.at), fails(s.at), i);
  }

  lemma MapTracked(s: State, t: Step, b0: seq<Buf>, beyond: nat -> bool, fails: nat -> bool)
    requires Inv(s) && Enabled(s, t) && Undisturbed(s, t, beyond, fails) && t.Map?
    requires Tracked(s, b0, beyond, StopFrom(b0, beyond, fails, 0))
    ensures Tracked(Apply(s, t), b0, beyond, StopFrom(b0, beyond, fails, 0))
  {
    hide Inv, StopFrom, Wanted;
    var stop := StopFrom(b0, beyond, fails, 0);
    assert TrackedAt(s, b0, beyond, stop, s.at);
    assert if s.at == stop then Stops(b0, beyond, fails, s.at) else !Stops(b0, beyond, fails, s.at);
    forall i | 0 <= i < |b0| ensures TrackedAt(Apply(s, t), b0, beyond, stop, i) {
      MapTrackedAt(s, b0, beyond, fails, stop, i);
    }
  }

  lemma EndMapTracked(s: State, t: Step, b0: seq<Buf>, beyond: nat -> bool, fails: nat -> bool)
    requires Inv(s) && Enabled(s, t) && Undisturbed(s, t, beyond, fails) && t.EndMap?
    requires Tracked(s, b0, beyond, StopFrom(b0, beyond, fails, 0))
    ensures Tracked(Apply(s, t), b0, beyond, StopFrom(b0, beyond, fails, 0))
  {
    hide BufsOk, AllEnded, Passed, NoneAsync, AllUptodate, StopFrom, Wanted;
    var stop, s' := StopFrom(b0, beyond, fails, 0), Apply(s, t);
    forall i | 0 <= i < |b0| ensures TrackedAt(s', b0, beyond, stop, i) {
      assert TrackedAt(s, b0, beyond, stop, i);
    }
  }

  /** What the loops over the buffers test is what is wanted. */
  lemma WantedHere(s: State, b0: seq<Buf>, beyond: nat -> bool, stop: nat)
    requires Tracked(s, b0, beyond, stop) && s.at < |b0| && (s.phase.Locking? || s.phase.Recovering?)
    ensures var b := s.bufs[s.at];
      Wanted(b0, beyond, stop, s.at) <==> b.mapped && b.dirty && (s.phase.Locking? ==> !b.other)
  {
    assert TrackedAt(s, b0, beyond, stop, s.at);
  }

  lemma LockTracked(s: State, t: Step, b0: seq<Buf>, beyond: nat -> bool, fails: nat -> bool)
    requires Inv(s) && Enabled(s, t) && Undisturbed(s, t, beyond, fails) && t.Lock?
    requires Tracked(s, b0, beyond, StopFrom(b0, beyond, fails, 0))
    ensures Tracked(Apply(s, t), b0, beyond, StopFrom(b0, beyond, fails, 0))
  {
    hide BufsOk, AllEnded, Passed, NoneAsync, AllUptodate, StopFrom, Wanted;
    var stop, s' := StopFrom(b0, beyond, fails, 0), Apply(s, t);
    WantedHere(s, b0, beyond, stop);
    forall i | 0 <= i < |b0| ensures TrackedAt(s', b0, beyond, stop, i) {
      assert TrackedAt(s, b0, beyond, stop, i);
      if i != s.at {
        StepTouches(s, t, i);
      }
    }
  }

  lemma RecoverTracked(s: State, t: Step, b0: seq<Buf>, beyond: nat -> bool, fails: nat -> bool)
    requires Inv(s) && Enabled(s, t) && Undisturbed(s, t, beyond, fails) && t.Recover?
    requires Tracked(s, b0, beyond, StopFrom(b0, beyond, fails, 0))
    ensures Tracked(Apply(s, t), b0, beyond, StopFrom(b0, beyond, fails, 0))
  {
    hide BufsOk, AllEnded, Passed, NoneAsync, AllUptodate, StopFrom, Wanted;
    var stop, s' := StopFrom(b0, beyond, fails, 0), Apply(s, t);
    WantedHere(s, b0, beyond, stop);
    forall i | 0 <= i < |b0| ensures TrackedAt(s', b0, beyond, stop, i) {
      assert TrackedAt(s, b0, beyond, stop, i);
      if i != s.at {
        StepTouches(s, t, i);
      }
    }
  }

  lemma BeginTracked(s: State, t: Step, b0: seq<Buf>, beyond: nat -> bool, fails: nat -> bool)
    requires Inv(s) && Enabled(s, t) && Undisturbed(s, t, beyond, fails) && (t.BeginWriteback? || t.EndSubmit?)
    requires Tracked(s, b0, beyond, StopFrom(b0, beyond, fails, 0))
    ensures Tracked(Apply(s, t), b0, beyond, StopFrom(b0, beyond, fails, 0))
  {
    hide BufsOk, AllEnded, Passed, NoneAsync, AllUptodate, StopFrom, Wanted;
    var stop, s' := StopFrom(b0, beyond, fails, 0), Apply(s, t);
    forall i | 0 <= i < |b0| ensures TrackedAt(s', b0, beyond, stop, i) {
      assert TrackedAt(s, b0, beyond, stop, i);
    }
  }

  lemma AsyncHere(s: State)
    requires Inv(s) && s.phase.Submitting? && s.at < |s.bufs|
    ensures s.bufs[s.at].async <==> s.at in s.marks
  {
    assert BufOk(s, s.at);
  }

  lemma SubmitTrackedAt(s: State, b0: seq<Buf>, beyond: nat -> bool, stop: nat, i: nat)
    requires Inv(s) && Enabled(s, Submit) && (s.recovering <==> stop < |b0|) && stop <= |b0|
    requires TrackedAt(s, b0, beyond, stop, i)
    ensures TrackedAt(Apply(s, Submit), b0, beyond, stop, i)
  {
    hide Inv, Wanted;
    AsyncHere(s);
  }

  lemma SubmitTracked(s: State, t: Step, b0: seq<Buf>, beyond: nat -> bool, fails: nat -> bool)
    requires Inv(s) && Enabled(s, t) && Undisturbed(s, t, beyond, fails) && t.Submit?
    requires Tracked(s, b0, beyond, StopFrom(b0, beyond, fails, 0))
    ensures Tracked(Apply(s, t), b0, beyond, StopFrom(b0, beyond, fails, 0))
  {
    hide Inv, StopFrom, TrackedAt;
    var stop := StopFrom(b0, beyond, fails, 0);
    forall i | 0 <= i < |b0| ensures TrackedAt(Apply(s, t), b0, beyond, stop, i) {
      SubmitTrackedAt(s, b0, beyond, stop, i);
    }
  }

  lemma IoTracked(s: State, t: Step, b0: seq<Buf>, beyond: nat -> bool, fails: nat -> bool)
    requires Inv(s) && Enabled(s, t) && Undisturbed(s, t, beyond, fails) && (t.IoDone? || t.Finish? || t.Close?)
    requires Tracked(s, b0, beyond, StopFrom(b0, beyond, fails, 0))
    ensures Tracked(Apply(s, t), b0, beyond, StopFrom(b0, beyond, fails, 0))
  {
    hide BufsOk, AllEnded, Passed, NoneAsync, AllUptodate, StopFrom, Wanted;
    var stop, s' := StopFrom(b0, beyond, fails, 0), Apply(s, t);
    forall i | 0 <= i < |b0| ensures TrackedAt(s', b0, beyond, stop, i) {
      assert TrackedAt(s, b0, beyond, stop, i);
    }
  }

  lemma StepTracked(s: State, t: Step, b0: seq<Buf>, beyond: nat -> bool, fails: nat -> bool)
    requires Inv(s) && Enabled(s, t) && Undisturbed(s, t, beyond, fails)
    requires Tracked(s, b0, beyond, StopFrom(b0, beyond, fails, 0))
    ensures Tracked(Apply(s, t), b0, beyond, StopFrom(b0, beyond, fails, 0))
  {
    hide Inv, Enabled, Apply, Tracked, StopFrom;
    match t
    case Map(_, _) => MapTracked(s, t, b0, beyond, fails);
    case EndMap => EndMapTracked(s, t, b0, beyond, fails);
    case BeginWriteback => BeginTracked(s, t, b0, beyond, fails);
    case EndSubmit => BeginTracked(s, t, b0, beyond, fails);
    case Submit => SubmitTracked(s, t, b0, beyond, fails);
    case Lock(_) => LockTracked(s, t, b0, beyond, fails);
    case Recover => RecoverTracked(s, t, b0, beyond, fails);
    case _ => IoTracked(s, t, b0, beyond, fails);
  }

  lemma {:induction false} RunTracked(s: State, run: seq<Step>, s': State,
                                      b0: seq<Buf>, beyond: nat -> bool, fails: nat -> bool)
    requires Inv(s) && RunsAlone(s, run, s', beyond, fails)
    requires Tracked(s, b0, beyond, StopFrom(b0, beyond, fails, 0))
    ensures Inv(s') && Tracked(s', b0, beyond, StopFrom(b0, beyond, fails, 0))
    decreases |run|
  {
    hide Inv, Tracked, Enabled, Apply, Undisturbed;
    if run != [] {
      StepKeepsInv(s, run[0]);
      StepTracked(s, run[0], b0, beyond, fails);
      RunTracked(Apply(s, run[0]), run[1..], s', b0, beyond, fails);
    }
  }

  /** How often the writing of buffer i is started in a run. */
  ghost function Starts(s: State, run: seq<Step>, i: nat): nat
    decreases |run|
  {
    if run == [] || !Enabled(s, run[0]) then 0
    else
      var s1 := Apply(s, run[0]);
      (if i < |s.bufs| && i < |s1.bufs| && !s.bufs[i].io.Flying? && s1.bufs[i].io.Flying? then 1 else 0)
      + Starts(s1, run[1..], i)
  }

  /** A buffer's I/O goes on from Quiet to Flying, and never back. */
  ghost predicate GoesOn(a: Io, b: Io) {
    (b.Quiet? ==> a.Quiet?) && (b.Flying? && !a.Flying? ==> a.Quiet?) && (a.Quiet? ==> b.Quiet? || b.Flying?)
  }

  lemma SameIo(s: State, t: Step, i: nat)
    requires Enabled(s, t) && i < |s.bufs| && !t.Submit? && !t.IoDone? && !t.Finish?
    ensures |Apply(s, t).bufs| == |s.bufs| && Apply(s, t).bufs[i].io == s.bufs[i].io
  {
    hide Apply, Enabled;
    StepTouches(s, t, i);
  }

  lemma IoGoesOn(s: State, t: Step, i: nat)
    requires Inv(s) && Enabled(s, t) && i < |s.bufs| && (t.Submit? || t.IoDone? || t.Finish?)
    ensures |Apply(s, t).bufs| == |s.bufs| && GoesOn(s.bufs[i].io, Apply(s, t).bufs[i].io)
  {
    hide BufsOk, PageOk, NoneAsync;
    if t.Submit? {
      QuietHere(s);
    }
  }

  lemma StepStarts(s: State, t: Step, i: nat)
    requires Inv(s) && Enabled(s, t) && i < |s.bufs|
    ensures |Apply(s, t).bufs| == |s.bufs| && GoesOn(s.bufs[i].io, Apply(s, t).bufs[i].io)
  {
    hide Inv, Apply, Enabled;
    if t.Submit? || t.IoDone? || t.Finish? {
      IoGoesOn(s, t, i);
    } else {
      SameIo(s, t, i);
    }
  }

  lemma QuietHere(s: State)
    requires Inv(s) && s.phase.Submitting? && s.at < |s.bufs|
    ensures s.bufs[s.at].io.Quiet?
  {
    assert BufOk(s, s.at);
  }

  lemma {:induction false} RunStarts(s: State, run: seq<Step>, s': State, i: nat,
                                     beyond: nat -> bool, fails: nat -> bool)
    requires Inv(s) && RunsAlone(s, run, s', beyond, fails) && i < |s.bufs|
    ensures |s'.bufs| == |s.bufs|
    ensures Starts(s, run, i) == (if s.bufs[i].io.Quiet? && !s'.bufs[i].io.Quiet? then 1 else 0)
    ensures !s.bufs[i].io.Quiet? ==> !s'.bufs[i].io.Quiet?
    decreases |run|
  {
    hide Inv, Enabled, Apply, Undisturbed;
    if run != [] {
      StepKeepsInv(s, run[0]);
      StepStarts(s, run[0], i);
      RunStarts(Apply(s, run[0]), run[1..], s', i, beyond, fails);
    }
  }

  /**
    Left alone, the page is written for exactly the buffers wanted: each of
    them is marked, its writing is started exactly once, and it is clean then;
    of the others nothing is started, and dirty stay only those that others
    have locked.
  */
  lemma WritesWhatIsDirty(b0: seq<Buf>, error: bool, run: seq<Step>, s: State, beyond: nat -> bool, fails: nat -> bool)
    requires Clean(b0) && RunsAlone(Init(b0, error), run, s, beyond, fails) && s.phase.Done?
    ensures var stop := StopFrom(b0, beyond, fails, 0);
      && |s.bufs| == |b0|
      && forall i :: 0 <= i < |b0| ==>
           && (i in s.marks <==> Wanted(b0, beyond, stop, i))
           && Starts(Init(b0, error), run, i) == (if Wanted(b0, beyond, stop, i) then 1 else 0)
           && s.bufs[i].dirty == (stop == |b0| && b0[i].dirty && !beyond(i) && b0[i].other)
  {
    hide Inv, Tracked, Wanted, RunsAlone;
    var s0, stop := Init(b0, error), StopFrom(b0, beyond, fails, 0);
    InitInv(b0, error);
    InitTracked(b0, error, beyond, stop);
    RunTracked(s0, run, s, b0, beyond, fails);
    DoneIs(s, b0, beyond, stop);
    forall i | 0 <= i < |b0| ensures Starts(s0, run, i) == (if Wanted(b0, beyond, stop, i) then 1 else 0) {
      RunStarts(s0, run, s, i, beyond, fails);
    }
  }

  lemma InitTracked(b0: seq<Buf>, error: bool, beyond: nat -> bool, stop: nat)
    requires stop <= |b0|
    ensures Tracked(Init(b0, error), b0, beyond, stop)
  {}

  lemma DoneIs(s: State, b0: seq<Buf>, beyond: nat -> bool, stop: nat)
    requires Inv(s) && Tracked(s, b0, beyond, stop) && s.phase.Done?
    ensures |s.bufs| == |b0|
    ensures forall i :: 0 <= i < |b0| ==>
      && (i in s.marks <==> Wanted(b0, beyond, stop, i))
      && (s.bufs[i].io.Quiet? <==> !Wanted(b0, beyond, stop, i))
      && s.bufs[i].dirty == (stop == |b0| && b0[i].dirty && !beyond(i) && b0[i].other)
  {
    forall i | 0 <= i < |b0|
      ensures i in s.marks <==> Wanted(b0, beyond, stop, i)
      ensures s.bufs[i].io.Quiet? <==> !Wanted(b0, beyond, stop, i)
      ensures s.bufs[i].dirty == (stop == |b0| && b0[i].dirty && !beyond(i) && b0[i].other)
    {
      assert TrackedAt(s, b0, beyond, stop, i) && BufOk(s, i);
    }
  }
}
