/**
  Completion of direct I/O: the counting of BIOs, as interleavings of atomic
  steps, one for each section under bio_lock.
*/
module DioSync {
  import opened Common

  /**
    The synchronous path.  The submitter holds one count of its own until all
    BIOs are submitted; the device moves BIOs from `flying` to `queued`; the
    submitter takes them off the queue and processes them.
  */
  datatype Phase = Submitting | Dropping | Draining | Asleep | Finished

  datatype State = State(
    phase: Phase,
    bioCount: int,
    biosInFlight: int,
    waiter: bool,
    woken: bool,
    flying: set<nat>,
    queued: seq<nat>,
    handling: Option<nat>,
    handled: set<nat>)

  datatype Event =
    | Submit(bio: nat)     // dio_bio_submit
    | EndIo(bio: nat)      // dio_bio_end_io, in the device's context
    | Reap                 // dio_bio_reap takes a BIO off bio_list
    | Process              // dio_bio_complete ends with finished_one_bio
    | AllSubmitted         // the walk is over
    | DropToken            // the submitter's own finished_one_bio
    | Take                 // dio_await_one finds a BIO
    | Sleep                // dio_await_one finds none
    | Wake                 // the sleeper runs again and rechecks
    | Stop                 // the drain loop sees bio_count == 0

  function Init(): State {
    State(Submitting, 1, 0, false, false, {}, [], None, {})
  }

  predicate Enabled(s: State, e: Event) {
    match e
    case Submit(b) => s.phase.Submitting? && s.handling.None? && b !in s.flying && b !in s.queued && b !in s.handled
    case EndIo(b) => b in s.flying
    case Reap => s.phase.Submitting? && s.handling.None? && s.queued != []
    case Process => s.handling.Some?
    case AllSubmitted => s.phase.Submitting? && s.handling.None?
    case DropToken => s.phase.Dropping?
    case Take => s.phase.Draining? && s.handling.None? && s.bioCount != 0 && s.queued != []
    case Sleep => s.phase.Draining? && s.handling.None? && s.bioCount != 0 && s.queued == []
    case Wake => s.phase.Asleep? && s.woken
    case Stop => s.phase.Draining? && s.handling.None? && s.bioCount == 0
  }

  function Apply(s: State, e: Event): State
    requires Enabled(s, e)
  {
    match e
    case Submit(b) => s.(bioCount := s.bioCount + 1, biosInFlight := s.biosInFlight + 1, flying := s.flying + {b})
    case EndIo(b) =>
      s.(queued := [b] + s.queued, flying := s.flying - {b}, biosInFlight := s.biosInFlight - 1,
         woken := s.woken || (s.waiter && s.biosInFlight - 1 == 0))
    case Reap => s.(handling := Some(s.queued[0]), queued := s.queued[1..])
    case Process => s.(bioCount := s.bioCount - 1, handled := s.handled + {s.handling.value}, handling := None)
    case AllSubmitted => s.(phase := Dropping)
    case DropToken => s.(phase := Draining, bioCount := s.bioCount - 1)
    case Take => s.(handling := Some(s.queued[0]), queued := s.queued[1..])
    case Sleep => s.(phase := Asleep, waiter := true, woken := false)
    case Wake => s.(phase := Draining, waiter := false)
    case Stop => s.(phase := Finished)
  }

  function Token(s: State): int {
    if s.phase.Submitting? || s.phase.Dropping? then 1 else 0
  }

  ghost predicate NoDup(q: seq<nat>) {
    forall i, j :: 0 <= i < j < |q| ==> q[i] != q[j]
  }

  /** Every BIO is in one place, and bio_count is the token plus the BIOs not yet processed. */
  ghost predicate Inv(s: State) {
    && s.bioCount == Token(s) + |s.flying| + |s.queued| + (if s.handling.Some? then 1 else 0)
    && s.biosInFlight == |s.flying|
    && NoDup(s.queued)
    && (forall b <- s.queued :: b !in s.flying && b !in s.handled && s.handling != Some(b))
    && s.flying !! s.handled
    && (s.handling.Some? ==> s.handling.value !in s.flying && s.handling.value !in s.handled)
    && (s.phase.Asleep? <==> s.waiter)
    // the sleeper is never left alone: a BIO in flight will wake it, or it has been woken
    && (s.phase.Asleep? ==> s.handling.None? && s.bioCount > 0 && (s.woken || s.flying != {}))
    && (s.phase.Finished? ==> s.bioCount == 0)
    && ((s.phase.Dropping? || s.phase.Finished?) ==> s.handling.None?)
  }

  /** Every BIO ever submitted. */
  function Known(s: State): set<nat> {
    s.flying + (set b | b in s.queued) + s.handled + (if s.handling.Some? then {s.handling.value} else {})
  }

  lemma InitInv()
    ensures Inv(Init()) && Known(Init()) == {}
  {}

  lemma PopKeepsInv(s: State)
    requires Inv(s) && s.handling.None? && s.queued != [] && !s.phase.Asleep? && !s.phase.Dropping?
    ensures Inv(s.(handling := Some(s.queued[0]), queued := s.queued[1..]))
  {
    assert forall b <- s.queued[1..] :: b in s.queued && b != s.queued[0];
  }

  lemma EndIoKeepsInv(s: State, b: nat)
    requires Inv(s) && b in s.flying
    ensures Inv(Apply(s, EndIo(b)))
  {
    var t := Apply(s, EndIo(b));
    assert forall c <- t.queued :: c == b || c in s.queued;
    assert |s.flying - {b}| == |s.flying| - 1;
    if |t.flying| == 0 {
      assert t.flying == {};
    }
  }

  lemma StepKeepsInv(s: State, e: Event)
    requires Inv(s) && Enabled(s, e)
    ensures Inv(Apply(s, e))
  {
    match e
    case EndIo(b) => EndIoKeepsInv(s, b);
    case Reap => PopKeepsInv(s);
    case Take => PopKeepsInv(s);
    case Sleep =>
      assert |s.flying| == s.bioCount;
    case _ =>
  }

  lemma StepKeepsBios(s: State, e: Event)
    requires Enabled(s, e) && (e.Reap? || e.Take? ==> s.handling.None?)
    ensures Known(Apply(s, e)) == Known(s) + (if e.Submit? then {e.bio} else {})
  {
    var t := Apply(s, e);
    if e.Reap? || e.Take? {
      assert s.queued == [s.queued[0]] + t.queued;
    }
  }

  ghost predicate IsRun(es: seq<Event>, s: State, t: State)
    decreases |es|
  {
    if es == [] then s == t
    else Enabled(s, es[0]) && IsRun(es[1..], Apply(s, es[0]), t)
  }

  function Submitted(es: seq<Event>): set<nat> {
    set e | e in es && e.Submit? :: e.bio
  }

  lemma {:induction false} RunKeepsInv(es: seq<Event>, s: State, t: State)
    requires Inv(s) && IsRun(es, s, t)
    ensures Inv(t)
    decreases |es|
  {
    hide Inv, Apply, Enabled;
    if es != [] {
      StepKeepsInv(s, es[0]);
      RunKeepsInv(es[1..], Apply(s, es[0]), t);
    }
  }

  lemma {:induction false} RunKeepsBios(es: seq<Event>, s: State, t: State)
    requires IsRun(es, s, t)
    ensures Known(t) == Known(s) + Submitted(es)
    decreases |es|
  {
    hide Known;
    if es != [] {
      StepKeepsBios(s, es[0]);
      RunKeepsBios(es[1..], Apply(s, es[0]), t);
      assert es == [es[0]] + es[1..];
    }
  }

  lemma DrainedMeansHandled(t: State)
    requires Inv(t) && t.phase.Draining? && t.handling.None?
    ensures t.bioCount == 0 <==> t.handled == Known(t)
  {
    if t.bioCount == 0 {
      assert |t.flying| == 0 && t.queued == [];
    } else if t.queued != [] {
      assert t.queued[0] in Known(t) && t.queued[0] !in t.handled;
    } else {
      assert |t.flying| == t.bioCount;
      var b :| b in t.flying;
      assert b in Known(t) && b !in t.handled;
    }
  }

  /** The drain loop ends exactly when every submitted BIO has been processed. */
  lemma DrainIsComplete(es: seq<Event>, t: State)
    requires IsRun(es, Init(), t) && t.phase.Draining? && t.handling.None?
    ensures Enabled(t, Stop) <==> t.handled == Submitted(es)
  {
    hide IsRun, Submitted, Inv, Known;
    InitInv();
    RunKeepsInv(es, Init(), t);
    RunKeepsBios(es, Init(), t);
    DrainedMeansHandled(t);
  }

  /** It never sleeps with nothing in flight: some step that leads on is always possible. */
  lemma NoDeadlock(es: seq<Event>, t: State)
    requires IsRun(es, Init(), t) && !t.phase.Finished?
    ensures exists e :: Enabled(t, e) && !e.Submit?
    ensures t.phase.Asleep? && !t.woken ==> exists b :: Enabled(t, EndIo(b))
  {
    hide IsRun;
    RunKeepsInv(es, Init(), t);
    if t.handling.Some? {
      assert Enabled(t, Process);
    } else {
      match t.phase
      case Submitting => assert Enabled(t, AllSubmitted);
      case Dropping => assert Enabled(t, DropToken);
      case Draining =>
        if t.bioCount == 0 {
          assert Enabled(t, Stop);
        } else if t.queued != [] {
          assert Enabled(t, Take);
        } else {
          assert Enabled(t, Sleep);
        }
      case Asleep =>
        if t.woken {
          assert Enabled(t, Wake);
        } else {
          var b :| b in t.flying;
          assert Enabled(t, EndIo(b));
        }
    }
  }

  /** Once submission is over every step but sleeping and waking brings the end nearer. */
  function Work(s: State): nat
    requires Inv(s)
  {
    3 * |s.flying| + 2 * |s.queued| + (if s.handling.Some? then 1 else 0)
    + (match s.phase case Submitting => 3 case Dropping => 2 case Draining => 1 case Asleep => 1 case Finished => 0)
  }

  lemma StepsMakeProgress(s: State, e: Event)
    requires Inv(s) && Enabled(s, e) && !e.Submit?
    ensures Inv(Apply(s, e))
    ensures if e.Sleep? || e.Wake? then Work(Apply(s, e)) == Work(s) else Work(Apply(s, e)) < Work(s)
    // a waker is followed by a sleeper only if a BIO is in flight
    ensures e.Sleep? ==> s.flying != {}
  {
    StepKeepsInv(s, e);
  }
}

/**
  The asynchronous path: BIOs complete in interrupt context, and whoever holds
  the last count completes the request.
*/
module DioAsync {
  import opened Common

  const EIO: int := -5

  datatype Actor = Submitter | BioActor(bio: nat)

  datatype Phase = Walking | Decided | Waiting | Returned

  /**
    `holders` are those whose finished_one_bio is still to come; `last` is the
    one that has seen bio_count == 1 and left the lock to complete the request.
    `moved` is what the walk has added to `result`, never more than was asked for.
    `result` is compared with `size` as the source does: equal, or smaller
    after conversion to an unsigned type.
  */
  datatype State = State(
    write: bool,
    size: nat,
    phase: Phase,
    shouldWait: bool,
    moved: nat,
    result: int,
    failed: bool,
    bioCount: int,
    holders: set<Actor>,
    last: Option<Actor>,
    completions: nat,
    frees: nat)

  datatype Event =
    | Submit(bio: nat)
    | Transfer(bytes: nat)       // direct_io_worker adds to dio->result
    | Fail(bio: nat)             // dio_bio_complete of a BIO that is not uptodate
    | Decide                     // direct_io_worker chooses whether to wait
    | Finish(who: Actor)         // finished_one_bio, the section under bio_lock
    | Complete                   // what the last one does after it
    | Collect                    // the waiting submitter sees bio_count == 0

  function Init(write: bool, size: nat): State {
    State(write, size, Walking, false, 0, 0, false, 1, {Submitter}, None, 0, 0)
  }

  /** `result < size` in the source: a negative result is a large unsigned number. */
  predicate ShortOf(result: int, size: nat) {
    0 <= result < size
  }

  predicate Enabled(s: State, e: Event) {
    match e
    case Submit(b) => s.phase.Walking? && BioActor(b) !in s.holders
    case Transfer(n) => s.phase.Walking? && s.moved + n <= s.size
    case Fail(b) => BioActor(b) in s.holders && s.last != Some(BioActor(b))
    case Decide => s.phase.Walking?
    case Finish(who) => who in s.holders && s.last != Some(who) && (who.Submitter? ==> s.phase.Decided?)
    case Complete => s.last.Some?
    case Collect => s.phase.Waiting? && s.bioCount == 0
  }

  function Apply(s: State, e: Event): State
    requires Enabled(s, e)
  {
    match e
    case Submit(b) => s.(bioCount := s.bioCount + 1, holders := s.holders + {BioActor(b)})
    case Transfer(n) => s.(result := s.result + n, moved := s.moved + n)
    case Fail(b) => s.(result := EIO, failed := true)
    case Decide => s.(phase := Decided, shouldWait := s.write && ShortOf(s.result, s.size))
    case Finish(who) =>
      var phase := if who.Submitter? then (if s.shouldWait then Waiting else Returned) else s.phase;
      if s.bioCount == 1 then s.(phase := phase, last := Some(who))
      else s.(phase := phase, bioCount := s.bioCount - 1, holders := s.holders - {who})
    case Complete =>
      var t := s.(last := None, holders := s.holders - {s.last.value});
      if s.result == s.size || !s.write then t.(completions := s.completions + 1, frees := s.frees + 1)
      else t.(bioCount := s.bioCount - 1)
    case Collect => s.(phase := Returned, frees := s.frees + 1)
  }

  ghost predicate Inv(s: State) {
    && s.completions <= s.frees <= 1
    && (s.frees == 0 ==> s.bioCount == |s.holders|)
    && (s.last.Some? ==> s.frees == 0 && s.holders == {s.last.value})
    && (Submitter in s.holders && s.last != Some(Submitter) <==> s.phase.Walking? || s.phase.Decided?)
    && (s.last == Some(Submitter) ==> !s.phase.Walking? && !s.phase.Decided?)
    && s.moved <= s.size
    && (if s.failed then s.result <= EIO + s.moved else s.result == s.moved)
    && (s.phase.Walking? ==> !s.shouldWait)
    && (s.shouldWait ==> s.write && s.result < s.size)
    && (s.phase.Waiting? ==> s.shouldWait && s.frees == 0)
    && (s.phase.Returned? && s.shouldWait ==> s.frees == 1)
    && (!s.phase.Walking? && s.write && !s.shouldWait && !s.failed ==> s.result == s.size)
    // completed and freed only by the last one out, or by the submitter that waited for it
    && (s.frees > 0 ==> s.holders == {} && s.last.None? && s.phase.Returned?)
    && (s.holders == {} ==>
          && s.completions == (if !s.write || (!s.shouldWait && !s.failed) then 1 else 0)
          && (s.frees == 1 <==> !s.write || (if s.shouldWait then s.phase.Returned? else !s.failed)))
    && (s.holders != {} ==> s.completions == 0 && s.frees == 0)
  }

  lemma StepKeepsInv(s: State, e: Event)
    requires Inv(s) && Enabled(s, e)
    ensures Inv(Apply(s, e)) && Apply(s, e).write == s.write && Apply(s, e).size == s.size
  {
    match e
    case Finish(who) => if s.bioCount == 1 { LoneHolder(s.holders, who); }
    case _ =>
  }

  lemma LoneHolder(hs: set<Actor>, who: Actor)
    requires who in hs && |hs| == 1
    ensures hs == {who}
  {
    assert |hs - {who}| == 0;
  }

  ghost predicate IsRun(es: seq<Event>, s: State, t: State)
    decreases |es|
  {
    if es == [] then s == t
    else Enabled(s, es[0]) && IsRun(es[1..], Apply(s, es[0]), t)
  }

  lemma {:induction false} RunKeepsInv(es: seq<Event>, s: State, t: State)
    requires Inv(s) && IsRun(es, s, t)
    ensures Inv(t) && t.write == s.write && t.size == s.size
    decreases |es|
  {
    hide Inv, Apply, Enabled;
    if es != [] {
      StepKeepsInv(s, es[0]);
      RunKeepsInv(es[1..], Apply(s, es[0]), t);
    }
  }

  /** Everybody has done what there was to do. */
  ghost predicate AtRest(s: State) {
    s.holders == {} && s.last.None? && s.phase.Returned?
  }

  /** Whatever touches the request has a count of its own: after the free nothing does. */
  lemma NoUseAfterFree(es: seq<Event>, write: bool, size: nat, t: State, e: Event)
    requires IsRun(es, Init(write, size), t) && t.frees > 0
    ensures !Enabled(t, e) && AtRest(t)
  {
    hide IsRun;
    RunKeepsInv(es, Init(write, size), t);
  }

  /** As long as somebody is not done, some step is possible. */
  lemma NobodyStuck(es: seq<Event>, write: bool, size: nat, t: State)
    requires IsRun(es, Init(write, size), t)
    ensures AtRest(t) <==> forall e :: !Enabled(t, e)
  {
    hide IsRun;
    RunKeepsInv(es, Init(write, size), t);
    if t.last.Some? {
      assert Enabled(t, Complete);
    } else if t.phase.Walking? {
      assert Enabled(t, Decide);
    } else if t.phase.Decided? {
      assert Enabled(t, Finish(Submitter));
    } else if t.holders != {} {
      var who :| who in t.holders;
      assert Enabled(t, Finish(who));
    } else if t.phase.Waiting? {
      assert Enabled(t, Collect);
    }
  }

  /**
    Completion and freeing come after the last BIO and the submitter, at most
    once.  At rest the request has been freed exactly once if and only if it is
    a read, or a write whose submitter chose to wait, or one no BIO of which
    failed; it has been completed exactly once if and only if it is a read, or
    a write of full length no BIO of which failed.
  */
  lemma ExactlyOnce(es: seq<Event>, write: bool, size: nat, t: State)
    requires IsRun(es, Init(write, size), t)
    ensures t.completions <= t.frees <= 1
    ensures t.completions > 0 || t.frees > 0 ==> t.holders == {}
    ensures AtRest(t) ==> (t.frees == 1 <==> !write || t.shouldWait || !t.failed)
    ensures AtRest(t) ==> (t.completions == 1 <==> !write || (!t.shouldWait && !t.failed))
  {
    hide IsRun;
    RunKeepsInv(es, Init(write, size), t);
  }

  /** A write of full length whose one BIO fails is never completed and never freed. */
  lemma FailedWriteExample()
    ensures exists es, t :: IsRun(es, Init(true, 512), t) && AtRest(t) && t.frees == 0 == t.completions
  {
    hide IsRun;
    var s0 := Init(true, 512);
    var s1 := Apply(s0, Submit(0));
    var s2 := Apply(s1, Transfer(512));
    var s3 := Apply(s2, Decide);
    var es, t := FailsAfterReturn(s3);
    RunCons(Decide, es, s2, t);
    RunCons(Transfer(512), [Decide] + es, s1, t);
    RunCons(Submit(0), [Transfer(512)] + ([Decide] + es), s0, t);
  }

  lemma FailsAfterReturn(s: State) returns (es: seq<Event>, t: State)
    requires s == State(true, 512, Decided, false, 512, 512, false, 2, {Submitter, BioActor(0)}, None, 0, 0)
    ensures IsRun(es, s, t) && AtRest(t) && t.frees == 0 == t.completions
  {
    var s4 := Apply(s, Finish(Submitter));
    var s5 := Apply(s4, Fail(0));
    var s6 := Apply(s5, Finish(BioActor(0)));
    t := Apply(s6, Complete);
    assert IsRun([], t, t);
    hide IsRun;
    RunCons(Complete, [], s6, t);
    RunCons(Finish(BioActor(0)), [Complete], s5, t);
    RunCons(Fail(0), [Finish(BioActor(0)), Complete], s4, t);
    RunCons(Finish(Submitter), [Fail(0), Finish(BioActor(0)), Complete], s, t);
    es := [Finish(Submitter)] + [Fail(0), Finish(BioActor(0)), Complete];
  }

  lemma RunCons(e: Event, es: seq<Event>, s: State, t: State)
    requires Enabled(s, e) && IsRun(es, Apply(s, e), t)
    ensures IsRun([e] + es, s, t)
  {
    assert ([e] + es)[1..] == es;
  }
}
