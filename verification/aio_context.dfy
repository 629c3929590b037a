/** References to AIO contexts, as interleavings of atomic steps, one for each locked section or atomic operation. */
module AioContext {
  datatype Stage = Fresh | Rejected | Admitted | Listed | Unlisted

  /**
    A kioctx and who holds references to it: the list (or, before it is on the
    list, its allocator); a destroyer that has claimed the list's; threads
    that looked it up; destroyers waiting for the requests, awake or asleep;
    requests in progress; requests parked on fput_head; and those about to
    call put_ioctx on behalf of a request that is gone.
  */
  datatype Ctx = Ctx(
    users: int,
    dead: bool,
    reqsActive: int,
    maxReqs: nat,
    stage: Stage,
    claimed: nat,
    holders: nat,
    waiting: nat,
    asleep: nat,
    live: nat,
    parked: nat,
    owed: nat)

  datatype State = State(ctxs: map<nat, Ctx>, aioNr: int, aioMax: nat)

  datatype Step =
    | Alloc(c: nat, max: nat)   // ioctx_alloc up to atomic_add
    | Check(c: nat)             // ... the limit is not exceeded
    | Reject(c: nat)            // ... it is: atomic_sub, max_reqs = 0
    | FreeRejected(c: nat)      // ... __put_ioctx
    | Link(c: nat)              // ... onto ioctx_list
    | Lookup(c: nat)            // lookup_ioctx
    | PutLookup(c: nat)         // put_ioctx by a thread that looked it up
    | Submit(c: nat)            // __aio_get_req
    | LastPut(c: nat)           // __aio_put_req: really_put_req
    | LastPutFile(c: nat)       // __aio_put_req: get_ioctx, onto fput_head
    | FinishFput(c: nat)        // aio_fput_routine: really_put_req
    | PutOwed(c: nat)           // the put_ioctx that follows either
    | Destroy(c: nat)           // io_destroy under ioctx_list_lock, and aio_cancel_all
    | Exit(c: nat)              // exit_aio takes the context off the list
    | PutList(c: nat)           // put_ioctx for the list
    | Sleep(c: nat)             // wait_for_all_aios finds active requests
    | PutWaiter(c: nat)         // ... finds none: put_ioctx for the lookup

  predicate Enabled(s: State, t: Step) {
    if t.Alloc? then t.c !in s.ctxs
    else t.c in s.ctxs && var x := s.ctxs[t.c];
      match t
      case Check(_) => x.stage.Fresh? && s.aioNr <= s.aioMax
      case Reject(_) => x.stage.Fresh? && s.aioNr > s.aioMax
      case FreeRejected(_) => x.stage.Rejected?
      case Link(_) => x.stage.Admitted?
      case Lookup(_) => x.stage.Listed? && !x.dead
      case PutLookup(_) => x.holders > 0
      case Submit(_) => x.holders > 0
      case LastPut(_) => x.live > 0
      case LastPutFile(_) => x.live > 0
      case FinishFput(_) => x.parked > 0
      case PutOwed(_) => x.owed > 0
      case Destroy(_) => x.holders > 0
      case Exit(_) => x.stage.Listed? && x.holders == 0 && x.waiting == 0 && x.asleep == 0
      case PutList(_) => x.claimed > 0
      case Sleep(_) => x.waiting > 0 && x.reqsActive != 0
      case PutWaiter(_) => x.waiting > 0 && x.reqsActive == 0
      case _ => true
  }

  /** get_ioctx stops the machine if the count is not positive. */
  predicate GetsFresh(s: State, t: Step) {
    (t.Lookup? || t.Submit? || t.LastPutFile?) && t.c in s.ctxs
  }

  /** really_put_req: reqs_active goes down, and the last one wakes the waiters of a dead context. */
  function Retired(x: Ctx): Ctx {
    var y := x.(reqsActive := x.reqsActive - 1);
    if y.reqsActive == 0 && y.dead then y.(waiting := x.waiting + x.asleep, asleep := 0) else y
  }

  /** What a step does to the context, put_ioctx aside. */
  function Change(s: State, t: Step): Ctx
    requires Enabled(s, t) && !t.Alloc?
  {
    var x := s.ctxs[t.c];
    match t
    case Check(_) => x.(stage := Admitted)
    case Reject(_) => x.(stage := Rejected, maxReqs := 0)
    case Link(_) => x.(stage := Listed)
    case Lookup(_) => x.(users := x.users + 1, holders := x.holders + 1)
    case PutLookup(_) => x.(holders := x.holders - 1)
    case Submit(_) => x.(users := x.users + 1, reqsActive := x.reqsActive + 1, live := x.live + 1)
    case LastPut(_) => Retired(x).(live := x.live - 1, owed := x.owed + 1)
    case LastPutFile(_) =>
      x.(users := x.users + 1, live := x.live - 1, parked := x.parked + 1, owed := x.owed + 1)
    case FinishFput(_) => Retired(x).(parked := x.parked - 1, owed := x.owed + 1)
    case PutOwed(_) => x.(owed := x.owed - 1)
    case Destroy(_) =>
      x.(dead := true, stage := Unlisted, claimed := if x.dead then x.claimed else x.claimed + 1,
         holders := x.holders - 1, waiting := x.waiting + 1)
    case Exit(_) => x.(dead := true, stage := Unlisted, claimed := x.claimed + 1)
    case PutList(_) => x.(claimed := x.claimed - 1)
    case Sleep(_) => x.(waiting := x.waiting - 1, asleep := x.asleep + 1)
    case PutWaiter(_) => x.(waiting := x.waiting - 1)
    case _ => x
  }

  predicate Puts(t: Step) {
    t.PutLookup? || t.PutOwed? || t.PutList? || t.PutWaiter? || t.FreeRejected?
  }

  /** put_ioctx: the last reference frees the context and gives its share of aio_nr back. */
  function Apply(s: State, t: Step): State
    requires Enabled(s, t)
  {
    if t.Alloc? then
      s.(ctxs := s.ctxs[t.c := Ctx(1, false, 0, t.max, Fresh, 0, 0, 0, 0, 0, 0, 0)], aioNr := s.aioNr + t.max)
    else
      var x := s.ctxs[t.c];
      var y := Change(s, t);
      if Puts(t) then
        if y.users - 1 == 0 then s.(ctxs := s.ctxs - {t.c}, aioNr := s.aioNr - y.maxReqs)
        else s.(ctxs := s.ctxs[t.c := y.(users := y.users - 1)])
      else if t.Reject? then s.(ctxs := s.ctxs[t.c := y], aioNr := s.aioNr - x.maxReqs)
      else s.(ctxs := s.ctxs[t.c := y])
  }

  // ------------------------------------------------------------------
  // What holds of each context
  // ------------------------------------------------------------------

  /** The reference of the list, or of the allocator that has not put it there yet. */
  function ListRef(x: Ctx): nat {
    if x.stage.Unlisted? then 0 else 1
  }

  function Holders(x: Ctx): nat {
    ListRef(x) + x.claimed + x.holders + x.waiting + x.asleep + x.live + x.parked + x.owed
  }

  ghost predicate CtxOk(x: Ctx) {
    && x.users == Holders(x) && x.users > 0
    && x.reqsActive == x.live + x.parked
    && x.dead == x.stage.Unlisted? && x.claimed <= 1 && (x.claimed == 1 ==> x.dead)
    && (x.stage.Fresh? || x.stage.Rejected? || x.stage.Admitted? ==> x.users == 1)
    && (x.waiting + x.asleep > 0 ==> x.dead)
    && (x.asleep > 0 ==> x.reqsActive > 0)
  }

  /** What is counted in aio_nr, or of it what has passed the check against the limit. */
  function Weight(x: Ctx, all: bool): nat {
    if all || !x.stage.Fresh? then x.maxReqs else 0
  }

  ghost function Total(m: map<nat, Ctx>, all: bool): nat
    decreases |m|
  {
    if m == map[] then 0
    else
      var k :| k in m;
      Weight(m[k], all) + Total(m - {k}, all)
  }

  lemma {:induction false} TotalWithout(m: map<nat, Ctx>, all: bool, k: nat)
    requires k in m
    ensures Total(m, all) == Weight(m[k], all) + Total(m - {k}, all)
    decreases |m|
  {
    var j :| j in m && Total(m, all) == Weight(m[j], all) + Total(m - {j}, all);
    if j != k {
      TotalWithout(m - {j}, all, k);
      TotalWithout(m - {k}, all, j);
      assert m - {j} - {k} == m - {k} - {j};
    }
  }

  lemma TotalUpdate(m: map<nat, Ctx>, all: bool, k: nat, y: Ctx)
    ensures Total(m[k := y], all) == Total(m, all) - (if k in m then Weight(m[k], all) else 0) + Weight(y, all)
  {
    var m' := m[k := y];
    TotalWithout(m', all, k);
    if k in m {
      TotalWithout(m, all, k);
      assert m' - {k} == m - {k};
    } else {
      assert m' - {k} == m;
    }
  }

  lemma {:induction false} TotalAdmitted(m: map<nat, Ctx>)
    ensures Total(m, false) <= Total(m, true)
    decreases |m|
  {
    if m != map[] {
      var k :| k in m;
      TotalWithout(m, false, k);
      TotalWithout(m, true, k);
      TotalAdmitted(m - {k});
    }
  }

  ghost predicate Inv(s: State) {
    && (forall c <- s.ctxs :: CtxOk(s.ctxs[c]))
    && s.aioNr == Total(s.ctxs, true)
    && Total(s.ctxs, false) <= s.aioMax
  }

  lemma PutKeepsCtx(s: State, t: Step)
    requires Enabled(s, t) && Puts(t) && CtxOk(s.ctxs[t.c])
    ensures var y := Change(s, t);
      if y.users == 1 then y.reqsActive == 0 && (y.stage.Rejected? || Holders(y) == 0)
      else CtxOk(y.(users := y.users - 1))
  {}

  lemma RequestKeepsCtx(s: State, t: Step)
    requires Enabled(s, t) && (t.Submit? || t.LastPut? || t.LastPutFile? || t.FinishFput?) && CtxOk(s.ctxs[t.c])
    ensures CtxOk(Change(s, t))
  {}

  lemma OtherKeepsCtx(s: State, t: Step)
    requires !t.Alloc? && Enabled(s, t) && CtxOk(s.ctxs[t.c])
    requires t.Check? || t.Reject? || t.Link? || t.Lookup? || t.Destroy? || t.Exit? || t.Sleep?
    ensures CtxOk(Change(s, t))
  {}

  lemma ChangeKeepsCtx(s: State, t: Step)
    requires !t.Alloc? && Enabled(s, t) && CtxOk(s.ctxs[t.c])
    ensures var y := Change(s, t);
      && (!Puts(t) ==> CtxOk(y))
      && (Puts(t) && y.users != 1 ==> CtxOk(y.(users := y.users - 1)))
  {
    hide CtxOk, Enabled, Change;
    if Puts(t) {
      PutKeepsCtx(s, t);
    } else if t.Submit? || t.LastPut? || t.LastPutFile? || t.FinishFput? {
      RequestKeepsCtx(s, t);
    } else {
      OtherKeepsCtx(s, t);
    }
  }

  lemma StepKeepsInv(s: State, t: Step)
    requires Inv(s) && Enabled(s, t)
    ensures Inv(Apply(s, t)) && Apply(s, t).aioMax == s.aioMax
  {
    hide CtxOk, Total;
    var s' := Apply(s, t);
    if t.Alloc? {
      var y := s'.ctxs[t.c];
      FreshOk(t.max);
      TotalUpdate(s.ctxs, true, t.c, y);
      TotalUpdate(s.ctxs, false, t.c, y);
    } else {
      ChangeKeepsCtx(s, t);
      var y := Change(s, t);
      var z := if Puts(t) then y.(users := y.users - 1) else y;
      TotalUpdate(s.ctxs, true, t.c, z);
      TotalUpdate(s.ctxs, false, t.c, z);
      TotalWithout(s.ctxs, true, t.c);
      TotalWithout(s.ctxs, false, t.c);
      WeightChange(s, t);
      TotalAdmitted(s'.ctxs);
    }
  }

  lemma FreshOk(max: nat)
    ensures CtxOk(Ctx(1, false, 0, max, Fresh, 0, 0, 0, 0, 0, 0, 0))
  {}

  lemma WeightChange(s: State, t: Step)
    requires !t.Alloc? && Enabled(s, t) && t.c in s.ctxs && CtxOk(s.ctxs[t.c])
    ensures var x, y := s.ctxs[t.c], Change(s, t);
      && (!t.Reject? ==> y.maxReqs == x.maxReqs)
      && (t.Reject? ==> y.maxReqs == 0)
      && (!t.Check? ==> Weight(y, false) <= Weight(x, false))
  {}

  ghost predicate Reaches(s: State, run: seq<Step>, s': State)
    decreases |run|
  {
    if run == [] then s == s'
    else Enabled(s, run[0]) && Reaches(Apply(s, run[0]), run[1..], s')
  }

  function Init(aioMax: nat): State {
    State(map[], 0, aioMax)
  }

  lemma {:induction false} RunKeepsInv(s: State, run: seq<Step>, s': State)
    requires Inv(s) && Reaches(s, run, s')
    ensures Inv(s') && s'.aioMax == s.aioMax
    decreases |run|
  {
    hide Inv, Apply, Enabled;
    if run != [] {
      StepKeepsInv(s, run[0]);
      RunKeepsInv(Apply(s, run[0]), run[1..], s');
    }
  }

  /**
    In every run each context's count is the number of its references, those
    of requests parked on fput_head included; aio_nr is the sum of max_reqs
    over the contexts that exist; and the contexts that were admitted stay
    within the limit.
  */
  lemma CountsInEveryRun(aioMax: nat, run: seq<Step>, s: State)
    requires Reaches(Init(aioMax), run, s)
    ensures forall c <- s.ctxs :: s.ctxs[c].users == Holders(s.ctxs[c]) >= 1
    ensures forall c <- s.ctxs :: s.ctxs[c].reqsActive == s.ctxs[c].live + s.ctxs[c].parked
    ensures s.aioNr == Total(s.ctxs, true) && Total(s.ctxs, false) <= aioMax
  {
    assert Inv(Init(aioMax));
    RunKeepsInv(Init(aioMax), run, s);
  }

  /** __put_ioctx never meets active requests, nor frees a context someone still refers to. */
  lemma FreedIsUnused(s: State, t: Step)
    requires Inv(s) && Enabled(s, t) && !t.Alloc? && t.c !in Apply(s, t).ctxs
    ensures var x := s.ctxs[t.c];
      x.reqsActive == 0 && x.live == 0 && x.parked == 0 && x.asleep == 0 && Holders(x) == 1 && x.users == 1
  {}

  /** get_ioctx never finds a count that is not positive. */
  lemma GetsAreSafe(s: State, t: Step)
    requires Inv(s) && Enabled(s, t) && GetsFresh(s, t)
    ensures s.ctxs[t.c].users > 0
  {}

  function Drops(run: seq<Step>, c: nat): nat {
    if run == [] then 0 else (if run[0] == PutList(c) then 1 else 0) + Drops(run[1..], c)
  }

  ghost predicate NeverAllocs(run: seq<Step>, c: nat) {
    forall t <- run :: !(t.Alloc? && t.c == c)
  }

  function ListRefLeft(s: State, c: nat): nat {
    if c in s.ctxs then ListRef(s.ctxs[c]) + s.ctxs[c].claimed else 0
  }

  /** Over the life of a context the list's reference is dropped at most once, however many destroy it. */
  lemma {:induction false} ListRefDroppedOnce(s: State, run: seq<Step>, s': State, c: nat)
    requires Inv(s) && Reaches(s, run, s') && NeverAllocs(run, c)
    ensures Drops(run, c) <= ListRefLeft(s, c) <= 1
    decreases |run|
  {
    if c in s.ctxs {
      assert CtxOk(s.ctxs[c]);
    }
    if run != [] {
      var t := run[0];
      assert t in run;
      StepKeepsInv(s, t);
      assert NeverAllocs(run[1..], c) by {
        assert forall u <- run[1..] :: u in run;
      }
      ListRefDroppedOnce(Apply(s, t), run[1..], s', c);
      ListRefStep(s, t, c);
    }
  }

  lemma ListRefStep(s: State, t: Step, c: nat)
    requires Inv(s) && Enabled(s, t) && !(t.Alloc? && t.c == c)
    ensures ListRefLeft(Apply(s, t), c) + (if t == PutList(c) then 1 else 0) <= ListRefLeft(s, c)
  {
    if t.c == c {
      assert CtxOk(s.ctxs[c]);
    }
  }

  /** A destroyer sleeps only while requests are active, and the last of them wakes it. */
  lemma NoSleeperForgotten(s: State, c: nat)
    requires Inv(s) && c in s.ctxs && s.ctxs[c].asleep > 0
    ensures Enabled(s, LastPut(c)) || Enabled(s, FinishFput(c))
    ensures s.ctxs[c].reqsActive == 1 ==>
      forall t | Enabled(s, t) && (t == LastPut(c) || t == FinishFput(c)) :: Apply(s, t).ctxs[c].asleep == 0
  {
    assert CtxOk(s.ctxs[c]);
  }
}
