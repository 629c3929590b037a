/** The completion ring of an AIO context: where its events lie, and how they pass through it. */
module AioSlots {
  import opened Common

  /**
    Sizes in bytes: of a page, of struct io_event, which divides it, and of
    struct aio_ring, the header at the start of the first page.
  */
  datatype Layout = Layout(page: Pos, event: Pos, header: nat) {
    predicate Valid() {
      page % event == 0 && header <= page
    }

    function PerPage(): nat { page / event }
    function FirstPage(): nat requires Valid() { (page - header) / event }
    function Offset(): int requires Valid() { PerPage() - FirstPage() }

    /** aio_setup_ring: the pages for max_reqs + 2 events, and how many events then fit. */
    function Pages(maxReqs: nat): nat { (header + event * (maxReqs + 2) + page - 1) / page }
    function Events(pages: nat): int { (page * pages - header) / event }

    /** aio_ring_event */
    function PageOf(i: nat): int requires Valid() && PerPage() >= 1 { (i + Offset()) / PerPage() }
    function ByteOf(i: nat): int requires Valid() && PerPage() >= 1 { (i + Offset()) % PerPage() * event }
  }

  lemma PerPageIs(l: Layout)
    requires l.Valid()
    ensures l.PerPage() >= 1 && l.page == l.PerPage() * l.event
  {
    assert l.page == l.page / l.event * l.event + l.page % l.event;
    if l.PerPage() < 1 {
      MulMonotone(l.PerPage(), 0, l.event);
    }
  }

  /** The skipped slots at the start are those the header reaches into. */
  lemma OffsetIs(l: Layout)
    requires l.Valid()
    ensures l.Offset() >= 0 && l.header <= l.Offset() * l.event < l.header + l.event
  {
    hide Layout.Valid;
    assert l.Valid();
    PerPageIs(l);
    var f := l.FirstPage();
    assert l.page - l.header == f * l.event + (l.page - l.header) % l.event;
    assert l.Offset() * l.event == l.page - f * l.event by {
      OffsetDistributes(l.PerPage(), f, l.event);
    }
    if l.Offset() < 0 {
      MulMonotone(l.Offset(), -1, l.event);
    }
  }

  lemma OffsetDistributes(a: int, b: int, c: int)
    ensures (a - b) * c == a * c - b * c
  {}

  /** The events that fit are what is left of all the slots after those skipped. */
  lemma EventsIs(l: Layout, pages: Pos)
    requires l.Valid()
    ensures l.Events(pages) == l.PerPage() * pages - l.Offset()
  {
    hide Layout.Valid, Layout.Offset, Layout.PerPage;
    assert l.Valid();
    PerPageIs(l);
    OffsetIs(l);
    var slots, o := l.PerPage() * pages, l.Offset();
    assert l.page * pages == slots * l.event by { Rearrange(l.PerPage(), l.event, pages); }
    var q, r := slots - o, o * l.event - l.header;
    assert q * l.event == slots * l.event - o * l.event by { OffsetDistributes(slots, o, l.event); }
    DivModUnique(l.page * pages - l.header, l.event, q, r);
  }

  lemma Rearrange(a: int, b: int, c: int)
    ensures a * b * c == a * c * b
  {}

  /** There is room for max_reqs + 2 events, so that one slot more than max_reqs can be full at once. */
  lemma RingHoldsRequests(l: Layout, maxReqs: nat)
    requires l.Valid()
    ensures l.Pages(maxReqs) >= 1 && l.Events(l.Pages(maxReqs)) >= maxReqs + 2
  {
    var size, n := l.header + l.event * (maxReqs + 2), l.Pages(maxReqs);
    assert size >= 1 by { MulMonotone(1, maxReqs + 2, l.event); }
    assert size + l.page - 1 == n * l.page + (size + l.page - 1) % l.page;
    if n < 1 {
      MulMonotone(n, 0, l.page);
    }
    var e := l.Events(n);
    assert l.page * n - l.header == e * l.event + (l.page * n - l.header) % l.event;
    if e < maxReqs + 2 {
      MulMonotone(e + 1, maxReqs + 2, l.event);
    }
  }

  /** An index below the number of events lies within the pages, clear of the header. */
  lemma SlotInBounds(l: Layout, pages: Pos, i: nat)
    requires l.Valid() && i < l.Events(pages)
    ensures l.PerPage() >= 1 && 0 <= l.PageOf(i) < pages && 0 <= l.ByteOf(i) && l.ByteOf(i) + l.event <= l.page
    ensures l.PageOf(i) == 0 ==> l.header <= l.ByteOf(i)
  {
    hide Layout.Valid, Layout.Offset, Layout.PerPage, Layout.Events;
    assert l.Valid();
    PerPageIs(l);
    OffsetIs(l);
    EventsIs(l, pages);
    Placed(l.PerPage(), l.event, pages, i + l.Offset(), l.Offset());
  }

  lemma Placed(k: Pos, event: Pos, pages: Pos, pos: nat, least: nat)
    requires least <= pos < k * pages
    ensures pos / k < pages && 0 <= pos % k * event && pos % k * event + event <= k * event
    ensures pos / k == 0 ==> least * event <= pos % k * event
  {
    var q, r := pos / k, pos % k;
    assert pos == q * k + r;
    if q >= pages {
      MulMonotone(pages, q, k);
    }
    MulMonotone(0, r, event);
    MulMonotone(r + 1, k, event);
    if q == 0 {
      MulMonotone(least, r, event);
    }
  }

  /** Different indices have places that do not overlap. */
  lemma SlotsApart(l: Layout, i: nat, j: nat)
    requires l.Valid() && l.PerPage() >= 1 && i < j
    ensures l.PageOf(i) != l.PageOf(j) || l.ByteOf(i) + l.event <= l.ByteOf(j)
  {
    hide Layout.Valid, Layout.Offset, Layout.PerPage;
    var k, a, b := l.PerPage(), i + l.Offset(), j + l.Offset();
    assert a == a / k * k + a % k && b == b / k * k + b % k;
    if a / k == b / k {
      MulMonotone(a % k + 1, b % k, l.event);
    }
  }
}

/** Submission, completion and reading, as interleavings of atomic steps. */
module AioRing {
  import opened Common

  datatype Event = Event(req: nat, res: int)

  /** aio_complete, under ctx_lock, between its writes to the ring. */
  datatype Completer = Idle | Wrote(event: Event) | Announced(event: Event)

  /** aio_read_evt, under ring_lock. */
  datatype Reader = Out | Looking | Copied(event: Event)

  /**
    `pending` are the requests that may yet produce an event; `parked` those
    that will not, but are still counted in reqs_active. `waiting` readers have
    seen head and tail differ and are yet to take ring_lock. `log` is every event
    whose tail has been published, `taken` what the readers have got so far.
  */
  datatype Ring = Ring(
    nr: nat,
    slots: seq<Event>,
    head: nat,
    tail: nat,           // ring->tail
    infoTail: nat,       // info->tail
    pending: set<nat>,
    parked: set<nat>,
    completer: Completer,
    waiting: nat,
    reader: Reader,
    log: seq<Event>,
    taken: seq<Event>)

  datatype Act =
    | Submit(req: nat)               // __aio_get_req
    | WriteEvent(event: Event)       // aio_complete fills the slot at info->tail
    | SetInfoTail                    // ... sets info->tail
    | SetRingTail                    // ... sets ring->tail, and the request is done
    | Abandon(req: nat)              // the request ends without an event
    | Release(req: nat)              // really_put_req
    | Test                           // aio_read_evt finds head and tail different
    | Enter                          // ... takes ring_lock
    | Look                           // ... and looks again
    | Copy                           // ... copies the event
    | Advance                        // ... and moves the head

  /** aio_ring_avail */
  function Avail(s: Ring): int
    requires s.nr > 0
  {
    (s.head + s.nr - 1 - s.tail) % s.nr
  }

  function Init(nr: Pos, slots: seq<Event>): Ring {
    Ring(nr, slots, 0, 0, 0, {}, {}, Idle, 0, Out, [], [])
  }

  predicate Enabled(s: Ring, a: Act) {
    match a
    case Submit(q) => s.completer.Idle? && q !in s.pending && q !in s.parked && (forall e <- s.log :: e.req != q)
    case WriteEvent(e) => s.completer.Idle? && e.req in s.pending && s.infoTail < |s.slots|
    case SetInfoTail => s.completer.Wrote? && s.nr > 0
    case SetRingTail => s.completer.Announced?
    case Abandon(q) => s.completer.Idle? && q in s.pending
    case Release(q) => s.completer.Idle? && q in s.parked
    case Test => s.head != s.tail
    case Enter => s.reader.Out? && s.waiting > 0
    case Look => s.reader.Looking? && s.nr > 0 && s.head % s.nr == s.tail
    case Copy => s.reader.Looking? && s.nr > 0 && s.head % s.nr != s.tail && s.head % s.nr < |s.slots|
    case Advance => s.reader.Copied? && s.nr > 0
  }

  function Apply(s: Ring, a: Act): Ring
    requires Enabled(s, a) && s.nr > 0
  {
    match a
    case Submit(q) => if |s.pending| + |s.parked| < Avail(s) then s.(pending := s.pending + {q}) else s
    case WriteEvent(e) =>
      s.(slots := s.slots[s.infoTail := e], completer := Wrote(e), pending := s.pending - {e.req})
    case SetInfoTail => s.(infoTail := (s.infoTail + 1) % s.nr, completer := Announced(s.completer.event))
    case SetRingTail =>
      s.(tail := s.infoTail, completer := Idle, log := s.log + [s.completer.event],
         parked := s.parked + {s.completer.event.req})
    case Abandon(q) => s.(pending := s.pending - {q}, parked := s.parked + {q})
    case Release(q) => s.(parked := s.parked - {q})
    case Test => s.(waiting := s.waiting + 1)
    case Enter => s.(reader := Looking, waiting := s.waiting - 1)
    case Look => s.(reader := Out)
    case Copy => s.(reader := Copied(s.slots[s.head % s.nr]))
    case Advance => s.(head := (s.head % s.nr + 1) % s.nr, reader := Out, taken := s.taken + [s.reader.event])
  }

  function Busy(s: Ring): nat {
    if s.completer.Idle? then 0 else 1
  }

  ghost predicate Counters(s: Ring) {
    && s.nr > 0 && |s.slots| == s.nr
    && s.taken <= s.log
    && s.head == |s.taken| % s.nr && s.tail == |s.log| % s.nr
    && s.infoTail == (if s.completer.Announced? then (|s.log| + 1) % s.nr else |s.log| % s.nr)
  }

  /** Requests that may still complete, and events that have not been read, leave a slot free. */
  ghost predicate Room(s: Ring) {
    |s.pending| + Busy(s) + |s.log| - |s.taken| <= s.nr - 1
  }

  /** Every unread event is in its slot. */
  ghost predicate Stored(s: Ring) {
    && s.nr > 0 && |s.slots| == s.nr
    && (forall j {:trigger s.log[j]} :: |s.taken| <= j < |s.log| ==> s.slots[j % s.nr] == s.log[j])
    && (!s.completer.Idle? ==> s.slots[|s.log| % s.nr] == s.completer.event)
    && (s.reader.Copied? ==> |s.taken| < |s.log| && s.reader.event == s.log[|s.taken|])
  }

  /** No request completes twice. */
  ghost predicate Once(s: Ring) {
    && (forall i, j :: 0 <= i < j < |s.log| ==> s.log[i].req != s.log[j].req)
    && (forall e <- s.log :: e.req !in s.pending)
    && s.pending !! s.parked
    && (!s.completer.Idle? ==>
         && s.completer.event.req !in s.pending && s.completer.event.req !in s.parked
         && forall e <- s.log :: e.req != s.completer.event.req)
  }

  ghost predicate Inv(s: Ring) {
    Counters(s) && Room(s) && Stored(s) && Once(s)
  }

  lemma InitInv(nr: Pos, slots: seq<Event>)
    requires |slots| == nr
    ensures Inv(Init(nr, slots))
  {}

  lemma ModApart(a: nat, b: nat, n: Pos)
    requires a < b < a + n
    ensures a % n != b % n
  {
    if a % n == b % n {
      assert b - a == (b / n - a / n) * n;
      if b / n > a / n {
        MulMonotone(1, b / n - a / n, n);
      } else {
        MulMonotone(b / n - a / n, 0, n);
      }
    }
  }

  lemma ModNext(a: nat, n: Pos)
    ensures (a % n + 1) % n == (a + 1) % n && a % n % n == a % n
  {
    var q, r := a / n, a % n;
    assert a == q * n + r;
    DivModUnique(r, n, 0, r);
    if r + 1 < n {
      DivModUnique(a + 1, n, q, r + 1);
      DivModUnique(r + 1, n, 0, r + 1);
    } else {
      assert (q + 1) * n == q * n + n;
      DivModUnique(a + 1, n, q + 1, 0);
      DivModUnique(r + 1, n, 1, 0);
    }
  }

  /** The head meets the tail exactly when nothing is unread. */
  lemma EmptyIs(s: Ring)
    requires Counters(s) && Room(s)
    ensures s.head == s.tail <==> |s.taken| == |s.log|
    ensures s.head % s.nr == s.head
  {
    ModNext(|s.taken|, s.nr);
    if |s.taken| < |s.log| {
      ModApart(|s.taken|, |s.log|, s.nr);
    }
  }

  /** aio_ring_avail is the number of slots that are free, one being kept empty. */
  lemma AvailIs(s: Ring)
    requires Counters(s) && Room(s)
    ensures Avail(s) == s.nr - 1 - (|s.log| - |s.taken|)
  {
    var n, a, b := s.nr, |s.taken|, |s.log|;
    var q, q' := a / n, b / n;
    assert a == q * n + a % n && b == q' * n + b % n;
    var free := n - 1 - (b - a);
    assert s.head + n - 1 - s.tail == free + (q' - q) * n;
    DivModUnique(s.head + n - 1 - s.tail, n, q' - q, free);
  }

  lemma SubmitKeeps(s: Ring, q: nat)
    requires Inv(s) && Enabled(s, Submit(q))
    ensures Inv(Apply(s, Submit(q)))
  {
    AvailIs(s);
  }

  lemma WriteKeeps(s: Ring, e: Event)
    requires Inv(s) && Enabled(s, WriteEvent(e))
    ensures Inv(Apply(s, WriteEvent(e)))
  {
    var s' := Apply(s, WriteEvent(e));
    assert |s'.pending| == |s.pending| - 1;
    forall j {:trigger s.log[j]} | |s.taken| <= j < |s.log| ensures s'.slots[j % s.nr] == s.log[j] {
      ModApart(j, |s.log|, s.nr);
    }
  }

  lemma TailKeeps(s: Ring, a: Act)
    requires Inv(s) && Enabled(s, a) && (a.SetInfoTail? || a.SetRingTail?)
    ensures Inv(Apply(s, a))
  {
    ModNext(|s.log|, s.nr);
  }

  lemma EndKeeps(s: Ring, a: Act)
    requires Inv(s) && Enabled(s, a) && (a.Abandon? || a.Release?)
    ensures Inv(Apply(s, a))
  {
    if a.Abandon? {
      assert |s.pending - {a.req}| == |s.pending| - 1;
    }
  }

  lemma ReadKeeps(s: Ring, a: Act)
    requires Inv(s) && Enabled(s, a) && (a.Test? || a.Enter? || a.Look? || a.Copy? || a.Advance?)
    ensures Inv(Apply(s, a))
  {
    EmptyIs(s);
    ModNext(|s.taken|, s.nr);
    if a.Copy? {
      assert s.slots[|s.taken| % s.nr] == s.log[|s.taken|];
    }
  }

  lemma StepKeepsInv(s: Ring, a: Act)
    requires Inv(s) && Enabled(s, a)
    ensures Inv(Apply(s, a))
  {
    hide Inv, Enabled, Apply;
    match a
    case Submit(q) => SubmitKeeps(s, q);
    case WriteEvent(e) => WriteKeeps(s, e);
    case SetInfoTail => TailKeeps(s, a);
    case SetRingTail => TailKeeps(s, a);
    case Abandon(_) => EndKeeps(s, a);
    case Release(_) => EndKeeps(s, a);
    case _ => ReadKeeps(s, a);
  }

  /** s' is reached from s by the steps of `run`, each enabled where it is taken. */
  ghost predicate Reaches(s: Ring, run: seq<Act>, s': Ring)
    decreases |run|
  {
    if run == [] then s == s'
    else s.nr > 0 && Enabled(s, run[0]) && Reaches(Apply(s, run[0]), run[1..], s')
  }

  /**
    Whatever the interleaving: what has been read is what was published, in
    order; each request is in it at most once; and a slot is left free.
  */
  lemma {:induction false} RunKeepsInv(s: Ring, run: seq<Act>, s': Ring)
    requires Inv(s) && Reaches(s, run, s')
    ensures Inv(s') && s.log <= s'.log && s.taken <= s'.taken
    decreases |run|
  {
    if run != [] {
      StepKeepsInv(s, run[0]);
      RunKeepsInv(Apply(s, run[0]), run[1..], s');
    }
  }

  /** The events of the completions of a run, in order. */
  function Completed(run: seq<Act>): seq<Event> {
    if run == [] then []
    else (if run[0].WriteEvent? then [run[0].event] else []) + Completed(run[1..])
  }

  /** The event that is in its slot but not yet published. */
  function Unpublished(s: Ring): seq<Event> {
    if s.completer.Idle? then [] else [s.completer.event]
  }

  lemma StepLogs(s: Ring, a: Act)
    requires s.nr > 0 && Enabled(s, a)
    ensures Apply(s, a).log + Unpublished(Apply(s, a)) == s.log + Unpublished(s) + Completed([a])
  {
    assert Completed([a][1..]) == [];
  }

  /** What is published, or about to be, is what was completed: every event with its result, in order. */
  lemma {:induction false} LogIsCompleted(s: Ring, run: seq<Act>, s': Ring)
    requires Reaches(s, run, s')
    ensures s'.log + Unpublished(s') == s.log + Unpublished(s) + Completed(run)
    decreases |run|
  {
    hide Enabled, Apply;
    if run != [] {
      var s1 := Apply(s, run[0]);
      StepLogs(s, run[0]);
      LogIsCompleted(s1, run[1..], s');
      assert Completed([run[0]]) + Completed(run[1..]) == Completed(run) by { assert [run[0]][1..] == []; }
      var a, b, c := s.log + Unpublished(s), Completed([run[0]]), Completed(run[1..]);
      assert (a + b) + c == a + (b + c);
    }
  }

  /** How many requests a run gives up without an event. */
  function Abandoned(run: seq<Act>): nat {
    if run == [] then 0 else (if run[0].Abandon? then 1 else 0) + Abandoned(run[1..])
  }

  /** How many submissions of a run find a slot. */
  ghost function Accepted(s: Ring, run: seq<Act>): nat
    decreases |run|
  {
    if run == [] || s.nr == 0 || !Enabled(s, run[0]) then 0
    else (if run[0].Submit? && |s.pending| + |s.parked| < Avail(s) then 1 else 0)
         + Accepted(Apply(s, run[0]), run[1..])
  }

  lemma StepPending(s: Ring, a: Act)
    requires s.nr > 0 && Enabled(s, a)
    ensures |Apply(s, a).pending| + (if a.WriteEvent? || a.Abandon? then 1 else 0)
         == |s.pending| + (if a.Submit? && |s.pending| + |s.parked| < Avail(s) then 1 else 0)
  {}

  /** Every request accepted is still pending, or has completed, or was abandoned: none is lost or invented. */
  lemma {:induction false} RequestsAccounted(s: Ring, run: seq<Act>, s': Ring)
    requires Reaches(s, run, s')
    ensures |s'.pending| + |Completed(run)| + Abandoned(run) == |s.pending| + Accepted(s, run)
    decreases |run|
  {
    hide Enabled, Apply, Avail;
    if run != [] {
      StepPending(s, run[0]);
      RequestsAccounted(Apply(s, run[0]), run[1..], s');
    }
  }

  function Released(run: seq<Act>): nat {
    if run == [] then 0 else (if run[0].Release? then 1 else 0) + Released(run[1..])
  }

  /** reqs_active: requests that may complete, the one completing, and those yet to be released. */
  function Active(s: Ring): nat {
    |s.pending| + Busy(s) + |s.parked|
  }

  lemma StepActive(s: Ring, a: Act)
    requires Inv(s) && Enabled(s, a)
    ensures Active(Apply(s, a)) + (if a.Release? then 1 else 0)
         == Active(s) + (if a.Submit? && |s.pending| + |s.parked| < Avail(s) then 1 else 0)
  {}

  /** A request counts as active from its acceptance to its release, whichever way it ends. */
  lemma {:induction false} ActiveAccounted(s: Ring, run: seq<Act>, s': Ring)
    requires Inv(s) && Reaches(s, run, s')
    ensures Active(s') + Released(run) == Active(s) + Accepted(s, run)
    decreases |run|
  {
    hide Enabled, Apply, Avail, Inv, Active;
    if run != [] {
      StepActive(s, run[0]);
      StepKeepsInv(s, run[0]);
      ActiveAccounted(Apply(s, run[0]), run[1..], s');
    }
  }

  /** The slot a completion writes is not one that is being read, or waits to be. */
  lemma WriteMissesUnread(s: Ring, e: Event, j: nat)
    requires Inv(s) && Enabled(s, WriteEvent(e)) && |s.taken| <= j < |s.log|
    ensures s.infoTail != j % s.nr
  {
    ModApart(j, |s.log|, s.nr);
  }

  /** A reader that looks under the lock gives up only if nothing is unread, and otherwise gets the oldest event. */
  lemma ReadIsFirst(s: Ring)
    requires Inv(s)
    ensures Enabled(s, Look) ==> |s.taken| == |s.log|
    ensures Enabled(s, Copy) ==> |s.taken| < |s.log| && Apply(s, Copy).reader == Copied(s.log[|s.taken|])
    ensures s.reader.Looking? ==> Enabled(s, Look) || Enabled(s, Copy)
  {
    EmptyIs(s);
    if |s.taken| < |s.log| {
      assert s.slots[|s.taken| % s.nr] == s.log[|s.taken|];
    }
  }

  /** The second look is needed: of two readers that saw one event, the later finds nothing. */
  lemma LateReader(s: Ring)
    requires Inv(s) && s.reader.Out? && s.waiting >= 2 && |s.log| == |s.taken| + 1
    ensures var s1 := Apply(s, Enter);
      && Enabled(s1, Copy) && Enabled(Apply(s1, Copy), Advance)
      && var s2 := Apply(Apply(s1, Copy), Advance);
      && Enabled(s2, Enter) && !Enabled(Apply(s2, Enter), Copy) && Enabled(Apply(s2, Enter), Look)
  {
    StepKeepsInv(s, Enter);
    var s1 := Apply(s, Enter);
    ReadIsFirst(s1);
    StepKeepsInv(s1, Copy);
    StepKeepsInv(Apply(s1, Copy), Advance);
    var s2 := Apply(Apply(s1, Copy), Advance);
    StepKeepsInv(s2, Enter);
    ReadIsFirst(Apply(s2, Enter));
  }

  /** Submission is refused exactly when the requests counted as active leave no free slot. */
  lemma RefusedWhenFull(s: Ring, q: nat)
    requires Inv(s) && Enabled(s, Submit(q))
    ensures q !in Apply(s, Submit(q)).pending <==>
      |s.pending| + |s.parked| + (|s.log| - |s.taken|) >= s.nr - 1
  {
    AvailIs(s);
  }

  /**
    From the start, in every interleaving: with the ring empty and nobody
    completing, what the readers got is what was completed, every event once,
    with its result and in order.
  */
  lemma ReadIsCompleted(nr: Pos, slots: seq<Event>, run: seq<Act>, s: Ring)
    requires |slots| == nr && Reaches(Init(nr, slots), run, s) && s.head == s.tail && s.completer.Idle?
    ensures s.taken == Completed(run)
  {
    DrainedIsAll(nr, slots, run, s);
    LogIsCompleted(Init(nr, slots), run, s);
    assert s.log + [] == s.log && [] + [] + Completed(run) == Completed(run);
  }

  /** Once all is quiet, every event published has been read, exactly once and in order. */
  lemma DrainedIsAll(nr: Pos, slots: seq<Event>, run: seq<Act>, s: Ring)
    requires |slots| == nr && Reaches(Init(nr, slots), run, s) && s.head == s.tail
    ensures s.taken == s.log && forall i, j :: 0 <= i < j < |s.taken| ==> s.taken[i].req != s.taken[j].req
  {
    InitInv(nr, slots);
    RunKeepsInv(Init(nr, slots), run, s);
    EmptyIs(s);
  }
}
