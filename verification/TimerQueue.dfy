/**
 The timer queue: an ordered set of (deadline, timer) entries and one timerfd
 that has to go off for the earliest of them.  Times are nanoseconds; reading the
 clock and arming the timerfd count as one instant.
 */
module Timers {

  /** The address of a timer object is below UINTPTR_MAX, the bound `get_expired` uses. */
  const PTR_MAX: nat := 0xffff_ffff_ffff_ffff
  type Timer = t: nat | t < PTR_MAX

  datatype Entry = Entry(when: int, timer: nat)

  /** `entry_comparator`: lexicographic on deadline and address. */
  predicate Less(a: Entry, b: Entry) {
    a.when < b.when || (a.when == b.when && a.timer < b.timer)
  }

  /** The comparator is a strict total order, as `std::set` demands. */
  lemma LessIsTotalOrder(a: Entry, b: Entry, c: Entry)
    ensures !Less(a, a)
    ensures Less(a, b) && Less(b, c) ==> Less(a, c)
    ensures a == b || Less(a, b) || Less(b, a)
    ensures !(Less(a, b) && Less(b, a))
  {
  }

  /** The elements of a `std::set<Entry>`, in order. */
  ghost predicate Sorted(q: seq<Entry>) {
    forall i, j :: 0 <= i < j < |q| ==> Less(q[i], q[j])
  }

  ghost predicate Addresses(q: seq<Entry>) {
    forall i :: 0 <= i < |q| ==> q[i].timer < PTR_MAX
  }

  /** `lower_bound`: the first position not below `e`. */
  function LowerBound(q: seq<Entry>, e: Entry): (k: nat)
    ensures k <= |q|
    ensures forall i :: 0 <= i < k ==> Less(q[i], e)
    ensures k < |q| ==> !Less(q[k], e)
  {
    if q == [] || !Less(q[0], e) then 0 else 1 + LowerBound(q[1..], e)
  }

  /** `emplace`: nothing happens when the entry is already there. */
  function Emplace(q: seq<Entry>, e: Entry): seq<Entry> {
    var k := LowerBound(q, e);
    if k < |q| && q[k] == e then q else q[..k] + [e] + q[k..]
  }

  lemma JoinSorted(a: seq<Entry>, e: Entry, b: seq<Entry>)
    requires Sorted(a) && Sorted(b)
    requires forall i :: 0 <= i < |a| ==> Less(a[i], e)
    requires forall j :: 0 <= j < |b| ==> Less(e, b[j])
    ensures Sorted(a + [e] + b)
  {
    var q := a + [e] + b;
    forall i, j | 0 <= i < j < |q|
      ensures Less(q[i], q[j])
    {
      if i < |a| {
        assert Less(a[i], e);
      }
      if j > |a| {
        assert Less(e, b[j - |a| - 1]);
      }
    }
  }

  lemma AboveLowerBound(q: seq<Entry>, e: Entry)
    requires Sorted(q) && e !in q
    ensures forall j :: 0 <= j < |q[LowerBound(q, e)..]| ==> Less(e, q[LowerBound(q, e)..][j])
  {
    var k := LowerBound(q, e);
    forall j | k <= j < |q|
      ensures Less(e, q[j])
    {
      assert q[k] in q;
      assert j == k || Less(q[k], q[j]);
    }
  }

  lemma EmplaceSorted(q: seq<Entry>, e: Entry)
    requires Sorted(q) && e !in q
    ensures Sorted(Emplace(q, e))
  {
    var k := LowerBound(q, e);
    AboveLowerBound(q, e);
    JoinSorted(q[..k], e, q[k..]);
  }

  lemma EmplaceAdds(q: seq<Entry>, e: Entry)
    requires e !in q
    ensures multiset(Emplace(q, e)) == multiset(q) + multiset{e}
  {
    var k := LowerBound(q, e);
    assert q == q[..k] + q[k..];
  }

  /** The earliest deadline after an insertion. */
  lemma EmplaceFirst(q: seq<Entry>, e: Entry)
    ensures Emplace(q, e) != []
    ensures Emplace(q, e)[0].when == if q == [] || e.when < q[0].when then e.when else q[0].when
  {
  }

  // ---- The alarm -----------------------------------------------------------------------------

  const BILLION: int := 1_000_000_000

  /** The timerfd: disarmed, or set to go off at a time.  It is readable from that time on,
      until it is read or set again. */
  datatype Alarm = Idle | Set(at: int)

  /** `duration_cast` and `%` on integers truncate toward zero. */
  function TruncDiv(a: int): int {
    if a >= 0 then a / BILLION else -((-a) / BILLION)
  }

  function TruncMod(a: int): int {
    a - BILLION * TruncDiv(a)
  }

  /** `timerfd_settime` with a relative value: invalid values change nothing, zero disarms. */
  function SetTime(alarm: Alarm, now: int, sec: int, nsec: int): Alarm {
    if sec < 0 || nsec < 0 || nsec >= BILLION then alarm
    else if sec == 0 && nsec == 0 then Idle
    else Set(now + BILLION * sec + nsec)
  }

  function Rearm(alarm: Alarm, when: int, now: int): Alarm {
    SetTime(alarm, now, TruncDiv(when - now), TruncMod(when - now))
  }

  /** The seconds and nanoseconds written are a valid split of a non-negative delay, and add
      up to it exactly. */
  lemma SplitExact(delta: int)
    requires 0 <= delta
    ensures 0 <= TruncDiv(delta) && 0 <= TruncMod(delta) < BILLION
    ensures BILLION * TruncDiv(delta) + TruncMod(delta) == delta
  {
  }

  /** What `reset_alarm` does: a future deadline arms it for exactly that time, the present
      disarms it, a past one changes nothing. */
  lemma ResetAlarmExact(alarm: Alarm, when: int, now: int)
    ensures Rearm(alarm, when, now)
         == if when > now then Set(when) else if when == now then Idle else alarm
  {
    var delta := when - now;
    if delta >= 0 {
      SplitExact(delta);
    } else {
      SplitExact(-delta);
      assert TruncMod(delta) == -TruncMod(-delta);
    }
  }

  // ---- The queue --------------------------------------------------------------------------------

  /** An entry run by the handler, and the clock reading that found it expired. */
  datatype Firing = Firing(entry: Entry, at: int)

  datatype Queue = Queue(timers: seq<Entry>, alarm: Alarm, added: multiset<Entry>, fired: seq<Firing>)

  const EMPTY_QUEUE := Queue([], Idle, multiset{}, [])

  /** One `add_timer` task, run by the loop when the clock reads `now`. */
  datatype AddCall = AddCall(when: int, timer: Timer, now: int)

  /** Does adding this deadline make it the earliest? */
  predicate BecomesFirst(q: Queue, when: int) {
    q.timers == [] || when < q.timers[0].when
  }

  function WithTimer(q: Queue, a: AddCall): Queue {
    var e := Entry(a.when, a.timer);
    q.(alarm := if BecomesFirst(q, a.when) then Rearm(q.alarm, a.when, a.now) else q.alarm,
       timers := Emplace(q.timers, e),
       added := q.added + multiset{e})
  }

  function AddAll(q: Queue, adds: seq<AddCall>): Queue
    decreases |adds|
  {
    if adds == [] then q else AddAll(WithTimer(q, adds[0]), adds[1..])
  }

  /** How many entries `get_expired(now)` takes. */
  function ExpiredCount(timers: seq<Entry>, now: int): nat {
    LowerBound(timers, Entry(now, PTR_MAX))
  }

  function Firings(es: seq<Entry>, at: int): seq<Firing> {
    seq(|es|, i requires 0 <= i < |es| => Firing(es[i], at))
  }

  /** Reading the timerfd consumes a past expiration. */
  function ReadAlarm(alarm: Alarm, now: int): Alarm {
    if alarm.Set? && alarm.at <= now then Idle else alarm
  }

  /** `handle_read` up to the callbacks: read the timerfd, take the expired entries. */
  function TakeExpired(q: Queue, now: int): Queue {
    var k := ExpiredCount(q.timers, now);
    assert k <= |q.timers|;
    q.(alarm := ReadAlarm(q.alarm, now),
       timers := q.timers[k..],
       fired := q.fired + Firings(q.timers[..k], now))
  }

  function ResetToFirst(q: Queue, now: int): Queue {
    if q.timers == [] then q else q.(alarm := Rearm(q.alarm, q.timers[0].when, now))
  }

  /** `handle_read`: `now` is the clock at `get_expired`, `adds` what the callbacks add, and
      `later` the clock when the alarm is set again. */
  function Handled(q: Queue, now: int, adds: seq<AddCall>, later: int): Queue {
    ResetToFirst(AddAll(TakeExpired(q, now), adds), later)
  }

  // ---- Partition and conservation -----------------------------------------------------------------

  /** `get_expired` takes exactly the entries whose deadline is not after `now`. */
  lemma ExpiredExactly(q: seq<Entry>, now: int, i: nat)
    requires Sorted(q) && Addresses(q) && i < |q|
    ensures i < ExpiredCount(q, now) <==> q[i].when <= now
  {
    var k := ExpiredCount(q, now);
    if i >= k {
      assert i == k || Less(q[k], q[i]);
    }
  }

  ghost predicate AllDue(q: seq<Entry>, now: int) {
    forall i :: 0 <= i < |q| ==> q[i].when <= now
  }

  ghost predicate AllLater(q: seq<Entry>, now: int) {
    forall i :: 0 <= i < |q| ==> q[i].when > now
  }

  lemma ExpiredSplit(q: seq<Entry>, now: int)
    requires Sorted(q) && Addresses(q)
    ensures var k := ExpiredCount(q, now);
            AllDue(q[..k], now) && AllLater(q[k..], now) && q[..k] + q[k..] == q
  {
    forall i | 0 <= i < |q|
      ensures i < ExpiredCount(q, now) <==> q[i].when <= now
    {
      ExpiredExactly(q, now, i);
    }
  }

  /** The entries due at `now`, in their order. */
  function Due(q: seq<Entry>, now: int): seq<Entry> {
    if q == [] then [] else if q[0].when <= now then [q[0]] + Due(q[1..], now) else Due(q[1..], now)
  }

  /** The entries not yet due, in their order. */
  function NotDue(q: seq<Entry>, now: int): seq<Entry> {
    if q == [] then [] else if q[0].when > now then [q[0]] + NotDue(q[1..], now) else NotDue(q[1..], now)
  }

  lemma {:induction false} AllLaterSplit(b: seq<Entry>, now: int)
    requires AllLater(b, now)
    ensures Due(b, now) == [] && NotDue(b, now) == b
  {
    if b != [] {
      AllLaterSplit(b[1..], now);
    }
  }

  lemma {:induction false} DueFirst(a: seq<Entry>, b: seq<Entry>, now: int)
    requires AllDue(a, now) && AllLater(b, now)
    ensures Due(a + b, now) == a && NotDue(a + b, now) == b
  {
    if a == [] {
      assert a + b == b;
      AllLaterSplit(b, now);
    } else {
      assert (a + b)[1..] == a[1..] + b && (a + b)[0] == a[0];
      DueFirst(a[1..], b, now);
      assert a == [a[0]] + a[1..];
    }
  }

  /** Taking the expired entries off an ordered set takes exactly those due. */
  lemma TakesDue(q: seq<Entry>, now: int)
    requires Sorted(q) && Addresses(q)
    ensures var k := ExpiredCount(q, now); q[..k] == Due(q, now) && q[k..] == NotDue(q, now)
  {
    var k := ExpiredCount(q, now);
    ExpiredSplit(q, now);
    DueFirst(q[..k], q[k..], now);
  }

  ghost predicate Fresh(q: Queue, a: AddCall) {
    forall i :: 0 <= i < |q.timers| ==> q.timers[i].timer != a.timer
  }

  /** Each call adds a timer whose object is not already in the set. */
  ghost predicate AllFresh(q: Queue, adds: seq<AddCall>)
    decreases |adds|
  {
    adds == [] || (Fresh(q, adds[0]) && AllFresh(WithTimer(q, adds[0]), adds[1..]))
  }

  function FiredEntries(fired: seq<Firing>): seq<Entry> {
    seq(|fired|, i requires 0 <= i < |fired| => fired[i].entry)
  }

  /** The set is in order, fired and pending timers together are the added ones, and nothing
      fired before its deadline. */
  ghost predicate QueueInv(q: Queue) {
    && Sorted(q.timers) && Addresses(q.timers)
    && multiset(FiredEntries(q.fired)) + multiset(q.timers) == q.added
    && forall i :: 0 <= i < |q.fired| ==> q.fired[i].entry.when <= q.fired[i].at
  }

  lemma AddKeeps(q: Queue, a: AddCall)
    requires QueueInv(q) && Fresh(q, a)
    ensures QueueInv(WithTimer(q, a))
  {
    var e := Entry(a.when, a.timer);
    assert e !in q.timers;
    EmplaceSorted(q.timers, e);
    EmplaceAdds(q.timers, e);
    EmplaceAddresses(q.timers, e);
  }

  lemma EmplaceAddresses(q: seq<Entry>, e: Entry)
    requires Addresses(q) && e.timer < PTR_MAX
    ensures Addresses(Emplace(q, e))
  {
  }

  lemma {:induction false} AddAllKeeps(q: Queue, adds: seq<AddCall>)
    requires QueueInv(q) && AllFresh(q, adds)
    ensures QueueInv(AddAll(q, adds))
    decreases |adds|
  {
    if adds != [] {
      AddKeeps(q, adds[0]);
      AddAllKeeps(WithTimer(q, adds[0]), adds[1..]);
    }
  }

  lemma TakeKeeps(q: Queue, now: int)
    requires QueueInv(q)
    ensures QueueInv(TakeExpired(q, now))
  {
    var k := ExpiredCount(q.timers, now);
    TakeConserves(q.fired, q.timers, k, now);
    forall i | 0 <= i < k
      ensures q.timers[..k][i].when <= now
    {
      ExpiredExactly(q.timers, now, i);
    }
  }

  lemma TakeConserves(fired: seq<Firing>, timers: seq<Entry>, k: nat, now: int)
    requires k <= |timers|
    ensures multiset(FiredEntries(fired + Firings(timers[..k], now))) + multiset(timers[k..])
         == multiset(FiredEntries(fired)) + multiset(timers)
  {
    assert timers == timers[..k] + timers[k..];
    assert FiredEntries(fired + Firings(timers[..k], now)) == FiredEntries(fired) + timers[..k];
  }

  datatype Step = Add(call: AddCall) | Fire(now: int, adds: seq<AddCall>, later: int)

  /** The handler runs when the timerfd is readable; timers are new objects. */
  ghost predicate Enabled(q: Queue, s: Step) {
    match s
    case Add(a) => Fresh(q, a)
    case Fire(now, adds, _) =>
      q.alarm.Set? && q.alarm.at <= now && AllFresh(TakeExpired(q, now), adds)
  }

  function Apply(q: Queue, s: Step): Queue {
    match s
    case Add(a) => WithTimer(q, a)
    case Fire(now, adds, later) => Handled(q, now, adds, later)
  }

  ghost predicate EnabledRun(q: Queue, steps: seq<Step>)
    decreases |steps|
  {
    steps == [] || (Enabled(q, steps[0]) && EnabledRun(Apply(q, steps[0]), steps[1..]))
  }

  function Run(q: Queue, steps: seq<Step>): Queue
    decreases |steps|
  {
    if steps == [] then q else Run(Apply(q, steps[0]), steps[1..])
  }

  lemma StepKeeps(q: Queue, s: Step)
    requires QueueInv(q) && Enabled(q, s)
    ensures QueueInv(Apply(q, s))
  {
    match s
    case Add(a) => AddKeeps(q, a);
    case Fire(now, adds, later) =>
      TakeKeeps(q, now);
      AddAllKeeps(TakeExpired(q, now), adds);
  }

  /** The entries a sequence of `add_timer` calls asks for. */
  function Entries(adds: seq<AddCall>): seq<Entry> {
    seq(|adds|, i requires 0 <= i < |adds| => Entry(adds[i].when, adds[i].timer))
  }

  lemma EntriesFirst(adds: seq<AddCall>)
    requires adds != []
    ensures multiset(Entries(adds)) == multiset{Entry(adds[0].when, adds[0].timer)} + multiset(Entries(adds[1..]))
  {
    assert Entries(adds) == [Entry(adds[0].when, adds[0].timer)] + Entries(adds[1..]);
  }

  lemma AddExactly(q: Queue, a: AddCall)
    requires Fresh(q, a)
    ensures var e, q' := Entry(a.when, a.timer), WithTimer(q, a);
            && q'.fired == q.fired && q'.added == q.added + multiset{e}
            && multiset(q'.timers) == multiset(q.timers) + multiset{e}
  {
    var e := Entry(a.when, a.timer);
    assert e !in q.timers;
    EmplaceAdds(q.timers, e);
  }

  lemma {:induction false} AddAllExactly(q: Queue, adds: seq<AddCall>)
    requires AllFresh(q, adds)
    ensures var m := AddAll(q, adds);
            && m.fired == q.fired && m.added == q.added + multiset(Entries(adds))
            && multiset(m.timers) == multiset(q.timers) + multiset(Entries(adds))
    decreases |adds|
  {
    if adds != [] {
      EntriesFirst(adds);
      AddExactly(q, adds[0]);
      AddAllExactly(WithTimer(q, adds[0]), adds[1..]);
    }
  }

  /** What the handler does to the timers: it fires exactly those due at its clock reading, in
      the order of their deadlines, and keeps exactly the others and what the callbacks add. */
  lemma FiresExactly(q: Queue, now: int, adds: seq<AddCall>, later: int)
    requires QueueInv(q) && AllFresh(TakeExpired(q, now), adds)
    ensures var q' := Handled(q, now, adds, later);
            && q'.fired == q.fired + Firings(Due(q.timers, now), now)
            && multiset(q'.timers) == multiset(NotDue(q.timers, now)) + multiset(Entries(adds))
            && q'.added == q.added + multiset(Entries(adds))
  {
    TakesDue(q.timers, now);
    TakeKeeps(q, now);
    AddAllExactly(TakeExpired(q, now), adds);
  }

  /** So nothing that was due stays pending, unless a callback adds it again. */
  lemma {:induction false} DueIsGone(q: seq<Entry>, now: int, e: Entry)
    ensures e in NotDue(q, now) <==> e in q && e.when > now
    ensures e in Due(q, now) <==> e in q && e.when <= now
    decreases |q|
  {
    if q != [] {
      DueIsGone(q[1..], now, e);
      assert q == [q[0]] + q[1..];
    }
  }

  /** The entries the steps of a run add. */
  function AddedBy(s: Step): seq<Entry> {
    match s
    case Add(a) => [Entry(a.when, a.timer)]
    case Fire(_, adds, _) => Entries(adds)
  }

  function AddedIn(steps: seq<Step>): seq<Entry>
    decreases |steps|
  {
    if steps == [] then [] else AddedBy(steps[0]) + AddedIn(steps[1..])
  }

  lemma AddedStep(q: Queue, s: Step)
    requires QueueInv(q) && Enabled(q, s)
    ensures Apply(q, s).added == q.added + multiset(AddedBy(s))
  {
    match s
    case Add(_) =>
    case Fire(now, adds, later) => FiresExactly(q, now, adds, later);
  }

  lemma {:induction false} RunConserves(q: Queue, steps: seq<Step>)
    requires QueueInv(q) && EnabledRun(q, steps)
    ensures QueueInv(Run(q, steps)) && Run(q, steps).added == q.added + multiset(AddedIn(steps))
    decreases |steps|
  {
    if steps != [] {
      StepKeeps(q, steps[0]);
      AddedStep(q, steps[0]);
      RunConserves(Apply(q, steps[0]), steps[1..]);
    }
  }

  /** Conservation: over every run, fired and pending timers together are exactly those the
      steps added, so none is lost or fires twice; and none fires before its deadline. */
  lemma TimersConserved(steps: seq<Step>)
    requires EnabledRun(EMPTY_QUEUE, steps)
    ensures var q := Run(EMPTY_QUEUE, steps);
            && QueueInv(q)
            && multiset(FiredEntries(q.fired)) + multiset(q.timers) == multiset(AddedIn(steps))
            && forall i :: 0 <= i < |q.fired| ==> q.fired[i].entry.when <= q.fired[i].at
  {
    RunConserves(EMPTY_QUEUE, steps);
  }

  // ---- The alarm covers the earliest timer ----------------------------------------------------------

  /** The alarm is set for the earliest deadline, past or future; with no timer it is off. */
  predicate Covered(q: Queue) {
    q.alarm == if q.timers == [] then Idle else Set(q.timers[0].when)
  }

  /** What an addition does to the alarm. */
  lemma AddSetsAlarm(q: Queue, a: AddCall)
    ensures WithTimer(q, a).alarm ==
              if !BecomesFirst(q, a.when) || a.when < a.now then q.alarm
              else if a.when > a.now then Set(a.when)
              else Idle
  {
    ResetAlarmExact(q.alarm, a.when, a.now);
  }

  /** Adding a timer keeps the alarm right exactly when the deadline is in the future or is
      not the earliest. */
  lemma AddCoversExactly(q: Queue, a: AddCall)
    requires QueueInv(q) && Covered(q)
    ensures Covered(WithTimer(q, a)) <==> a.when > a.now || !BecomesFirst(q, a.when)
  {
    EmplaceFirst(q.timers, Entry(a.when, a.timer));
    ResetAlarmExact(q.alarm, a.when, a.now);
  }

  /** Was the last of the calls that became the earliest, if any, for the future?  `armed` is
      the answer before the calls. */
  predicate ArmedLast(q: Queue, adds: seq<AddCall>, armed: bool)
    decreases |adds|
  {
    if adds == [] then armed
    else
      var a := adds[0];
      ArmedLast(WithTimer(q, a), adds[1..], if BecomesFirst(q, a.when) then a.when > a.now else armed)
  }

  /** The alarm while the callbacks run: right exactly if `armed`, and never too early. */
  predicate ArmedIf(q: Queue, armed: bool) {
    && (armed <==> q.timers != [] && q.alarm == Set(q.timers[0].when))
    && (q.alarm.Set? ==> q.timers != [] && q.timers[0].when <= q.alarm.at)
  }

  lemma {:induction false} CallbacksArm(q: Queue, adds: seq<AddCall>, armed: bool)
    requires ArmedIf(q, armed)
    ensures ArmedIf(AddAll(q, adds), ArmedLast(q, adds, armed))
    decreases |adds|
  {
    if adds != [] {
      var a := adds[0];
      EmplaceFirst(q.timers, Entry(a.when, a.timer));
      ResetAlarmExact(q.alarm, a.when, a.now);
      CallbacksArm(WithTimer(q, a), adds[1..], if BecomesFirst(q, a.when) then a.when > a.now else armed);
    }
  }

  /** What it takes for a step to leave the alarm right.  An addition must be for the future
      unless it is not the earliest.  The handler must find no timer left, or the earliest
      still in the future when it sets the alarm again, or already past but armed for by the
      last callback that added a new earliest one; a deadline that falls on or before the
      second clock reading is otherwise forgotten. */
  predicate Arms(q: Queue, s: Step) {
    match s
    case Add(a) => a.when > a.now || !BecomesFirst(q, a.when)
    case Fire(now, adds, later) =>
      var kept := TakeExpired(q, now);
      var m := AddAll(kept, adds);
      || m.timers == []
      || m.timers[0].when > later
      || (m.timers[0].when < later && ArmedLast(kept, adds, false))
  }

  /** When the handler leaves the alarm right, whatever the callbacks add. */
  lemma HandleReadCoversExactly(q: Queue, now: int, adds: seq<AddCall>, later: int)
    requires QueueInv(q) && Covered(q) && Enabled(q, Fire(now, adds, later))
    ensures Covered(Handled(q, now, adds, later)) <==> Arms(q, Fire(now, adds, later))
  {
    var kept := TakeExpired(q, now);
    var m := AddAll(kept, adds);
    CallbacksArm(kept, adds, false);
    if m.timers != [] {
      ResetAlarmExact(m.alarm, m.timers[0].when, later);
    }
  }

  ghost predicate ArmsRun(q: Queue, steps: seq<Step>)
    decreases |steps|
  {
    steps == [] || (Arms(q, steps[0]) && ArmsRun(Apply(q, steps[0]), steps[1..]))
  }

  /** The alarm is right at every boundary of the run. */
  ghost predicate CoveredThroughout(q: Queue, steps: seq<Step>)
    decreases |steps|
  {
    Covered(q) && (steps == [] || CoveredThroughout(Apply(q, steps[0]), steps[1..]))
  }

  /** Over whole runs: the alarm covers the earliest timer at every boundary if and only if
      every step meets its condition. */
  lemma {:induction false} AlarmCoversExactly(q: Queue, steps: seq<Step>)
    requires QueueInv(q) && Covered(q) && EnabledRun(q, steps)
    ensures CoveredThroughout(q, steps) <==> ArmsRun(q, steps)
    decreases |steps|
  {
    if steps != [] {
      var q' := Apply(q, steps[0]);
      StepKeeps(q, steps[0]);
      match steps[0] {
        case Add(a) => AddCoversExactly(q, a);
        case Fire(now, adds, later) => HandleReadCoversExactly(q, now, adds, later);
      }
      if Covered(q') {
        AlarmCoversExactly(q', steps[1..]);
      }
    }
  }

  /** The deadline an `add_timer` or a handler sets the alarm for is strictly in the future. */
  predicate Future(q: Queue, s: Step) {
    match s
    case Add(a) => BecomesFirst(q, a.when) ==> a.when > a.now
    case Fire(now, adds, later) =>
      var m := AddAll(TakeExpired(q, now), adds);
      m.timers != [] ==> m.timers[0].when > later
  }

  ghost predicate FutureRun(q: Queue, steps: seq<Step>)
    decreases |steps|
  {
    steps == [] || (Future(q, steps[0]) && FutureRun(Apply(q, steps[0]), steps[1..]))
  }

  lemma {:induction false} FutureArms(q: Queue, steps: seq<Step>)
    requires FutureRun(q, steps)
    ensures ArmsRun(q, steps)
    decreases |steps|
  {
    if steps != [] {
      FutureArms(Apply(q, steps[0]), steps[1..]);
    }
  }

  lemma {:induction false} CoveredAtEnd(q: Queue, steps: seq<Step>)
    requires CoveredThroughout(q, steps)
    ensures Covered(Run(q, steps))
    decreases |steps|
  {
    if steps != [] {
      CoveredAtEnd(Apply(q, steps[0]), steps[1..]);
    }
  }

  /** The alarm covers the earliest timer at every boundary of every run in which the alarm is
      only ever set for the future, even when callbacks add timers. */
  lemma AlarmCoversEarliest(q: Queue, steps: seq<Step>)
    requires QueueInv(q) && Covered(q) && EnabledRun(q, steps) && FutureRun(q, steps)
    ensures CoveredThroughout(q, steps) && Covered(Run(q, steps))
  {
    FutureArms(q, steps);
    AlarmCoversExactly(q, steps);
    CoveredAtEnd(q, steps);
  }

  // ---- Forgotten timers ---------------------------------------------------------------------------

  /** The earliest timer is due and the alarm is off. */
  predicate Stuck(q: Queue, clock: int) {
    q.timers != [] && q.timers[0].when <= clock && q.alarm == Idle
  }

  function Reading(s: Step): int {
    match s
    case Add(a) => a.now
    case Fire(now, _, _) => now
  }

  /** A due timer with the alarm off is forgotten for ever, and with it every later one: as
      long as the clock does not go back, the alarm stays off and nothing fires any more,
      whatever is added. */
  lemma {:induction false} ForgottenForever(q: Queue, clock: int, steps: seq<Step>)
    requires Stuck(q, clock) && EnabledRun(q, steps)
    requires forall i :: 0 <= i < |steps| ==> Reading(steps[i]) >= clock
    ensures Stuck(Run(q, steps), clock) && Run(q, steps).fired == q.fired
    decreases |steps|
  {
    if steps != [] {
      var a := steps[0].call;
      assert Reading(steps[0]) >= clock;
      EmplaceFirst(q.timers, Entry(a.when, a.timer));
      ResetAlarmExact(q.alarm, a.when, a.now);
      assert forall i :: 0 <= i < |steps[1..]| ==> steps[1..][i] == steps[i + 1];
      ForgottenForever(Apply(q, steps[0]), clock, steps[1..]);
    }
  }

  /** The queue after adding timers due at 10 and 11. */
  function TwoTimers(): Queue {
    Queue([Entry(10, 1), Entry(11, 2)], Set(10), multiset{Entry(10, 1), Entry(11, 2)}, [])
  }

  lemma TwoTimersReached()
    ensures WithTimer(WithTimer(EMPTY_QUEUE, AddCall(10, 1, 0)), AddCall(11, 2, 0)) == TwoTimers()
    ensures Fresh(WithTimer(EMPTY_QUEUE, AddCall(10, 1, 0)), AddCall(11, 2, 0))
  {
    ResetAlarmExact(Idle, 10, 0);
    assert WithTimer(EMPTY_QUEUE, AddCall(10, 1, 0)) == Queue([Entry(10, 1)], Set(10), multiset{Entry(10, 1)}, []);
    assert LowerBound([Entry(10, 1)], Entry(11, 2)) == 1;
  }

  lemma SecondTimerForgotten()
    ensures Handled(TwoTimers(), 10, [], 12).timers == [Entry(11, 2)]
    ensures Handled(TwoTimers(), 10, [], 12).alarm == Idle
  {
    var q := TwoTimers();
    ExpiredExactly(q.timers, 10, 0);
    ExpiredExactly(q.timers, 10, 1);
    assert q.timers[1..] == [Entry(11, 2)];
    ResetAlarmExact(Idle, 11, 12);
  }

  /** The restriction is needed: a timer due one tick after the first clock reading is
      forgotten when the second reading comes two ticks later. */
  lemma BetweenReadingsIsForgotten()
    ensures var steps := [Add(AddCall(10, 1, 0)), Add(AddCall(11, 2, 0)), Fire(10, [], 12)];
            && EnabledRun(EMPTY_QUEUE, steps)
            && Run(EMPTY_QUEUE, steps).timers == [Entry(11, 2)]
            && Stuck(Run(EMPTY_QUEUE, steps), 12)
  {
    TwoTimersReached();
    SecondTimerForgotten();
    var a, b, c := Add(AddCall(10, 1, 0)), Add(AddCall(11, 2, 0)), Fire(10, [], 12);
    RunCons(TwoTimers(), c, []);
    RunCons(Apply(EMPTY_QUEUE, a), b, [c]);
    RunCons(EMPTY_QUEUE, a, [b, c]);
    assert [a] + [b, c] == [a, b, c];
  }

  /** A callback that adds a timer already due, as `run_after` with a zero delay does, leaves
      it forgotten too. */
  lemma DueInCallbackIsForgotten()
    ensures var q := Queue([Entry(10, 1)], Set(10), multiset{Entry(10, 1)}, []);
            var s := Fire(10, [AddCall(10, 2, 11)], 12);
            && q == Apply(EMPTY_QUEUE, Add(AddCall(10, 1, 0))) && Covered(q) && Enabled(q, s)
            && Apply(q, s).timers == [Entry(10, 2)] && Stuck(Apply(q, s), 12)
  {
    var q := Queue([Entry(10, 1)], Set(10), multiset{Entry(10, 1)}, []);
    ResetAlarmExact(Idle, 10, 0);
    ExpiredExactly(q.timers, 10, 0);
    var kept := TakeExpired(q, 10);
    assert kept.timers == [] && kept.alarm == Idle;
    var a := AddCall(10, 2, 11);
    ResetAlarmExact(Idle, 10, 11);
    assert WithTimer(kept, a).timers == [Entry(10, 2)];
    assert AddAll(kept, [a]) == WithTimer(kept, a);
    ResetAlarmExact(Idle, 10, 12);
  }

  lemma RunCons(q: Queue, s: Step, rest: seq<Step>)
    requires Enabled(q, s) && EnabledRun(Apply(q, s), rest)
    ensures EnabledRun(q, [s] + rest) && Run(q, [s] + rest) == Run(Apply(q, s), rest)
  {
    assert ([s] + rest)[1..] == rest;
  }

  // ---- The code -----------------------------------------------------------------------------------------

  class TimerQueue {
    var timers: seq<Entry>
    var alarm: Alarm
    ghost var added: multiset<Entry>
    ghost var fired: seq<Firing>

    ghost function Model(): Queue
      reads this
    {
      Queue(timers, alarm, added, fired)
    }

    constructor ()
      ensures Model() == EMPTY_QUEUE
    {
      timers, alarm, added, fired := [], Idle, multiset{}, [];
    }

    method ResetAlarm(when: int, now: int)
      modifies this`alarm
      ensures alarm == Rearm(old(alarm), when, now)
    {
      var delta := when - now;
      alarm := SetTime(alarm, now, TruncDiv(delta), TruncMod(delta));
    }

    /** `std::set::lower_bound`. */
    method FindLowerBound(e: Entry) returns (k: nat)
      ensures k == LowerBound(timers, e)
    {
      k := 0;
      while k < |timers| && Less(timers[k], e)
        invariant k <= |timers|
        invariant LowerBound(timers, e) == k + LowerBound(timers[k..], e)
      {
        assert timers[k..][1..] == timers[k + 1..];
        k := k + 1;
      }
    }

    /** `std::set::emplace`. */
    method Insert(e: Entry)
      modifies this`timers
      ensures timers == Emplace(old(timers), e)
    {
      var k := FindLowerBound(e);
      if !(k < |timers| && timers[k] == e) {
        timers := timers[..k] + [e] + timers[k..];
      }
    }

    /** What `add_timer` has the loop run. */
    method AddTimer(a: AddCall)
      requires QueueInv(Model()) && Fresh(Model(), a)
      modifies this
      ensures Model() == WithTimer(old(Model()), a) && QueueInv(Model())
    {
      AddKeeps(Model(), a);
      AddEntry(a);
    }

    method AddEntry(a: AddCall)
      modifies this
      ensures Model() == WithTimer(old(Model()), a)
    {
      if timers == [] || a.when < timers[0].when {
        ResetAlarm(a.when, a.now);
      }
      var e := Entry(a.when, a.timer);
      Insert(e);
      added := added + multiset{e};
    }

    method GetExpired(now: int) returns (expired: seq<Entry>)
      requires Sorted(timers) && Addresses(timers)
      modifies this`timers
      ensures expired + timers == old(timers)
      ensures AllDue(expired, now) && AllLater(timers, now) && expired == Due(old(timers), now)
      ensures var k := ExpiredCount(old(timers), now);
              expired == old(timers)[..k] && timers == old(timers)[k..]
    {
      ExpiredSplit(timers, now);
      TakesDue(timers, now);
      var k := FindLowerBound(Entry(now, PTR_MAX));
      expired := timers[..k];
      timers := timers[k..];
    }

    /** `handle_read`; `adds` are the calls the callbacks make, in order. */
    method HandleRead(now: int, adds: seq<AddCall>, later: int) returns (expired: seq<Entry>)
      requires QueueInv(Model()) && AllFresh(TakeExpired(Model(), now), adds)
      modifies this
      ensures Model() == Handled(old(Model()), now, adds, later) && QueueInv(Model())
      ensures expired == Due(old(timers), now) && fired == old(fired) + Firings(expired, now)
      ensures multiset(timers) == multiset(NotDue(old(timers), now)) + multiset(Entries(adds))
    {
      FiresExactly(Model(), now, adds, later);
      expired := FireExpired(now);
      RunCallbacks(adds);
      ResetToEarliest(later);
    }

    method ResetToEarliest(later: int)
      requires QueueInv(Model())
      modifies this`alarm
      ensures Model() == ResetToFirst(old(Model()), later) && QueueInv(Model())
    {
      if timers != [] {
        ResetAlarm(timers[0].when, later);
      }
    }

    /** The handler up to the callbacks. */
    method FireExpired(now: int) returns (expired: seq<Entry>)
      requires QueueInv(Model())
      modifies this
      ensures Model() == TakeExpired(old(Model()), now) && QueueInv(Model())
      ensures expired == Due(old(timers), now) && fired == old(fired) + Firings(expired, now)
    {
      TakeKeeps(Model(), now);
      alarm := ReadAlarm(alarm, now);
      expired := GetExpired(now);
      fired := fired + Firings(expired, now);
      assert Model() == TakeExpired(old(Model()), now);
    }

    method RunCallbacks(adds: seq<AddCall>)
      requires QueueInv(Model()) && AllFresh(Model(), adds)
      modifies this
      ensures Model() == AddAll(old(Model()), adds) && QueueInv(Model())
      ensures fired == old(fired)
    {
      var i := 0;
      while i < |adds|
        invariant i <= |adds| && fired == old(fired)
        invariant QueueInv(Model()) && AllFresh(Model(), adds[i..])
        invariant AddAll(Model(), adds[i..]) == AddAll(old(Model()), adds)
      {
        assert adds[i..][1..] == adds[i + 1..];
        AddTimer(adds[i]);
        i := i + 1;
      }
    }
  }
}
