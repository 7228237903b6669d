/**
 The reminder checker: every ten seconds it reads the clock and the stored list, sends every
 reminder that is due, and writes back the ones that are not, but only when something was sent.
 */
module Scheduler {
  import opened Wrappers
  import opened Reminders

  /** What one pass of the checker does: the records it sends, the records it keeps, and
      whether it writes the kept records back to the store. */
  datatype Outcome = Outcome(fired: seq<Reminder>, pending: seq<Reminder>, saved: bool)

  /**
   One pass at clock reading `now`: the records due at or before `now`, the rest, and whether
   the list is written back (the source compares the lengths of the old and new lists).
   */
  function Tick(s: seq<Reminder>, now: int): (o: Outcome)
    ensures |o.fired| + |o.pending| == |s|
    ensures o.saved <==> |o.fired| > 0
  {
    var fired, pending := Select(s, AtOrBefore(now)), Select(s, Later(now));
    SplitConserves(s, now);
    assert |multiset(fired)| + |multiset(pending)| == |multiset(s)|;
    Outcome(fired, pending, |pending| != |s|)
  }

  /**
   A pass splits the list: a record fires exactly when `now >= due`, so one due exactly now
   fires; every other record is kept; none is lost or duplicated. The store is written exactly
   when something fired, and otherwise the list is left as it was.
   */
  lemma TickPartitions(s: seq<Reminder>, now: int)
    ensures var o := Tick(s, now);
            && (forall x :: x in o.fired <==> x in s && x.due <= now)
            && (forall x :: x in o.pending <==> x in s && now < x.due)
            && multiset(o.fired) + multiset(o.pending) == multiset(s)
            && (o.saved <==> |o.fired| > 0)
            && (!o.saved ==> o.pending == s)
  {
    var fired := Select(s, AtOrBefore(now));
    var pending := Select(s, Later(now));
    SelectMembers(s, AtOrBefore(now));
    SelectMembers(s, Later(now));
    SplitConserves(s, now);
    if |fired| == 0 {
      forall i | 0 <= i < |s|
        ensures now < s[i].due
      {
        assert s[i] !in fired;
      }
      SelectAll(s, Later(now));
    }
  }

  /** The loop of the checker's body, record by record, as the source writes it. */
  method CheckReminders(s: seq<Reminder>, now: int)
    returns (fired: seq<Reminder>, pending: seq<Reminder>, saved: bool)
    ensures Outcome(fired, pending, saved) == Tick(s, now)
  {
    fired, pending := [], [];
    for i := 0 to |s|
      invariant fired == Select(s[..i], AtOrBefore(now))
      invariant pending == Select(s[..i], Later(now))
    {
      assert s[..i + 1][..i] == s[..i];
      if now >= s[i].due {
        fired := fired + [s[i]];
      } else {
        pending := pending + [s[i]];
      }
    }
    assert s[..|s|] == s;
    saved := |pending| != |s|;
  }

  /** On a sorted list both parts stay sorted, so reminders fire earliest first. */
  lemma TickKeepsOrder(s: seq<Reminder>, now: int)
    requires Sorted(s)
    ensures Sorted(Tick(s, now).fired)
    ensures Sorted(Tick(s, now).pending)
  {
    SelectSorted(s, AtOrBefore(now));
    SelectSorted(s, Later(now));
  }

  /**
   Two passes, the second no earlier than the first, fire exactly what one pass at the later
   time fires, in the same order, and keep the same records.
   */
  lemma TicksCompose(s: seq<Reminder>, t: int, t': int)
    requires Sorted(s) && t <= t'
    ensures var first := Tick(s, t);
            var second := Tick(first.pending, t');
            && first.fired + second.fired == Tick(s, t').fired
            && second.pending == Tick(s, t').pending
  {
    DueTwice(s, t, t');
    LaterTwice(s, t, t');
  }

  // ---------------------------------------------------------------- runs of the checker loop

  /** One pass of the loop: the clock reading, and the position among this pass's sends of the
      first one the messaging backend rejects, if any. */
  datatype Sweep = Sweep(now: int, failsAt: Option<nat>)

  /**
   The result of running the loop: every send attempted, the messages among them that the
   backend rejected and that are therefore lost, the list left in the store, and whether the loop
   is still going.
   */
  datatype RunOutcome =
    RunOutcome(attempted: seq<Reminder>, lost: seq<Reminder>, remaining: seq<Reminder>, running: bool)

  predicate Nondecreasing(sweeps: seq<Sweep>) {
    forall i, j :: 0 <= i < j < |sweeps| ==> sweeps[i].now <= sweeps[j].now
  }

  /** The send of a pass that the backend rejects, if the pass gets that far. */
  function Rejected(fired: seq<Reminder>, failsAt: Option<nat>): (r: seq<Reminder>)
    ensures |r| <= 1
    ensures forall x :: x in r ==> x in fired
  {
    if failsAt.Some? && failsAt.value < |fired| then [fired[failsAt.value]] else []
  }

  /**
   The loop with each failed send contained: the message is lost, the pass carries on, and the
   list still advances. Every reminder is attempted at most once, and only attempted sends can
   be lost.
   */
  function Run(s: seq<Reminder>, sweeps: seq<Sweep>): (o: RunOutcome)
    ensures o.running
    ensures |o.lost| <= |sweeps|
    ensures forall x :: x in o.lost ==> x in o.attempted
    decreases |sweeps|
  {
    if |sweeps| == 0 then RunOutcome([], [], s, true)
    else
      var t := Tick(s, sweeps[0].now);
      var rest := Run(t.pending, sweeps[1..]);
      RunOutcome(t.fired + rest.attempted, Rejected(t.fired, sweeps[0].failsAt) + rest.lost,
                 rest.remaining, true)
  }

  /** Over any run, the records attempted and the records left are the original list, each once. */
  lemma {:induction false} RunConserves(s: seq<Reminder>, sweeps: seq<Sweep>)
    ensures var o := Run(s, sweeps);
            multiset(o.attempted) + multiset(o.remaining) == multiset(s)
    decreases |sweeps|
  {
    if |sweeps| > 0 {
      var t := Tick(s, sweeps[0].now);
      SplitConserves(s, sweeps[0].now);
      RunConserves(t.pending, sweeps[1..]);
    }
  }

  /** The same passes with a backend that accepts every send. */
  function Reliable(sweeps: seq<Sweep>): (r: seq<Sweep>)
    ensures |r| == |sweeps|
    ensures forall i :: 0 <= i < |r| ==> r[i] == Sweep(sweeps[i].now, None)
  {
    seq(|sweeps|, i requires 0 <= i < |sweeps| => Sweep(sweeps[i].now, None))
  }

  /**
   A rejected send changes nothing but the loss of its message: what is attempted and what stays
   stored are those of the same run with a backend that accepts everything, which loses nothing.
   */
  lemma {:induction false} RunIgnoresFailures(s: seq<Reminder>, sweeps: seq<Sweep>)
    ensures var o, ok := Run(s, sweeps), Run(s, Reliable(sweeps));
            && o.attempted == ok.attempted
            && o.remaining == ok.remaining
            && ok.lost == []
    decreases |sweeps|
  {
    if |sweeps| > 0 {
      var t := Tick(s, sweeps[0].now);
      RunIgnoresFailures(t.pending, sweeps[1..]);
      var r := Reliable(sweeps);
      assert r[1..] == Reliable(sweeps[1..]);
      assert r[0].now == sweeps[0].now && r[0].failsAt.None?;
      assert Rejected(t.fired, None) == [];
    }
  }

  /** The messages a run loses are among those it attempted, counting repeats. */
  lemma {:induction false} RunLosesOnlyAttempted(s: seq<Reminder>, sweeps: seq<Sweep>)
    ensures var o := Run(s, sweeps);
            multiset(o.lost) <= multiset(o.attempted)
    decreases |sweeps|
  {
    if |sweeps| > 0 {
      var t := Tick(s, sweeps[0].now);
      RunLosesOnlyAttempted(t.pending, sweeps[1..]);
      var here := Rejected(t.fired, sweeps[0].failsAt);
      if here != [] {
        assert here[0] in multiset(t.fired);
        assert multiset(here) == multiset{here[0]};
      }
    }
  }

  /**
   Over any run whose clock never goes back, the loop attempts exactly the reminders due by the
   last pass, earliest first, and keeps exactly the rest, whatever the backend did.
   */
  lemma {:induction false} RunFiresEachDueOnce(s: seq<Reminder>, sweeps: seq<Sweep>)
    requires Sorted(s) && |sweeps| > 0 && Nondecreasing(sweeps)
    ensures var last := sweeps[|sweeps| - 1].now;
            && Run(s, sweeps).attempted == Tick(s, last).fired
            && Run(s, sweeps).remaining == Tick(s, last).pending
    decreases |sweeps|
  {
    var t0 := sweeps[0].now;
    var last := sweeps[|sweeps| - 1].now;
    var first := Tick(s, t0);
    if |sweeps| == 1 {
      assert first.fired + [] == first.fired;
    } else {
      var rest := sweeps[1..];
      assert Nondecreasing(rest);
      assert rest[|rest| - 1].now == last;
      TickKeepsOrder(s, t0);
      RunFiresEachDueOnce(first.pending, rest);
      TicksCompose(s, t0, last);
    }
  }

  /**
   One pass as the source writes it: the sends are not guarded, so the first rejected send
   raises out of the pass before the list is written back.
   */
  datatype Pass = Completed(outcome: Outcome) | Raised(attempted: seq<Reminder>)

  function TickAsWritten(s: seq<Reminder>, now: int, failsAt: Option<nat>): (p: Pass)
    ensures p.Completed? ==> p.outcome == Tick(s, now)
    ensures p.Raised? <==> failsAt.Some? && failsAt.value < |Tick(s, now).fired|
    ensures p.Raised? ==> |p.attempted| > 0 && p.attempted <= Tick(s, now).fired
  {
    var o := Tick(s, now);
    if failsAt.Some? && failsAt.value < |o.fired| then Raised(o.fired[..failsAt.value + 1])
    else Completed(o)
  }

  /**
   The loop as the source writes it: nothing catches an exception from a pass, so the first
   rejected send ends the checker task for good, with the list left as it was read. The rejected
   message is lost like in the contained loop.
   */
  function RunAsWritten(s: seq<Reminder>, sweeps: seq<Sweep>): (o: RunOutcome)
    ensures (forall i :: 0 <= i < |sweeps| ==> sweeps[i].failsAt.None?) ==> o == Run(s, sweeps)
    decreases |sweeps|
  {
    if |sweeps| == 0 then RunOutcome([], [], s, true)
    else
      match TickAsWritten(s, sweeps[0].now, sweeps[0].failsAt)
      case Raised(attempted) =>
        RunOutcome(attempted, Rejected(Tick(s, sweeps[0].now).fired, sweeps[0].failsAt), s, false)
      case Completed(t) =>
        var rest := RunAsWritten(t.pending, sweeps[1..]);
        assert forall i :: 0 <= i < |sweeps[1..]| ==> sweeps[1..][i] == sweeps[i + 1];
        assert Rejected(t.fired, sweeps[0].failsAt) == [];
        RunOutcome(t.fired + rest.attempted, rest.lost, rest.remaining, rest.running)
  }

  /**
   Up to the first rejected send the two loops agree: while the loop as written is still running,
   no send was rejected, and it has attempted, lost and kept exactly what the contained loop has.
   */
  lemma {:induction false} RunningAgrees(s: seq<Reminder>, sweeps: seq<Sweep>)
    ensures var w, c := RunAsWritten(s, sweeps), Run(s, sweeps);
            w.running ==>
              && w.lost == []
              && w.attempted == c.attempted && w.lost == c.lost && w.remaining == c.remaining
    decreases |sweeps|
  {
    if |sweeps| > 0 {
      RunningAgrees(Tick(s, sweeps[0].now).pending, sweeps[1..]);
    }
  }

  /** Two passes over two records, the first due by the first pass, the second by the next. */
  lemma TwoPasses(a: Reminder, b: Reminder, t: int, t': int)
    requires a.due <= t < b.due <= t'
    ensures Tick([a, b], t) == Outcome([a], [b], true)
    ensures Tick([b], t') == Outcome([b], [], true)
  {
    FirstOfTwoDue(a, b, t);
    LoneDue(b, t');
  }

  lemma FirstOfTwoDue(a: Reminder, b: Reminder, t: int)
    requires a.due <= t < b.due
    ensures Tick([a, b], t) == Outcome([a], [b], true)
  {
    assert [a, b] == [a] + [b];
    SelectAppend([a], [b], AtOrBefore(t));
    SelectAppend([a], [b], Later(t));
    SelectSingle(a, AtOrBefore(t));
    SelectSingle(a, Later(t));
    SelectSingle(b, AtOrBefore(t));
    SelectSingle(b, Later(t));
    var fired, pending := Select([a, b], AtOrBefore(t)), Select([a, b], Later(t));
    assert fired == [a] + [] && pending == [] + [b];
  }

  lemma LoneDue(b: Reminder, t: int)
    requires b.due <= t
    ensures Tick([b], t) == Outcome([b], [], true)
  {
    SelectSingle(b, AtOrBefore(t));
    SelectSingle(b, Later(t));
  }

  /**
   A single rejected send stops every later reminder: when the send of a reminder due at the
   first pass is rejected, a reminder due by the second pass is never attempted, and the first
   one stays stored although its message was lost.
   */
  lemma SinkFailureStopsChecker(a: Reminder, b: Reminder, t: int, t': int)
    requires a.due <= t < b.due <= t'
    ensures RunAsWritten([a, b], [Sweep(t, Some(0)), Sweep(t', None)])
              == RunOutcome([a], [a], [a, b], false)
  {
    TwoPasses(a, b, t, t');
    assert TickAsWritten([a, b], t, Some(0)) == Raised([a]);
  }

  /**
   With each failed send contained, the same run loses only the rejected message: the second
   reminder is still sent, and the list is emptied.
   */
  lemma SinkFailureContained(a: Reminder, b: Reminder, t: int, t': int)
    requires a.due <= t < b.due <= t'
    ensures Run([a, b], [Sweep(t, Some(0)), Sweep(t', None)]) == RunOutcome([a, b], [a], [], true)
  {
    TwoPasses(a, b, t, t');
    RunOfTwo([a, b], Sweep(t, Some(0)), Sweep(t', None));
    assert [a] + [b] == [a, b];
    assert Rejected([a], Some(0)) == [a];
    assert Rejected([b], None) == [];
  }

  /** A run of two passes is the second pass applied to what the first one kept. */
  lemma RunOfTwo(s: seq<Reminder>, w: Sweep, w': Sweep)
    ensures var first := Tick(s, w.now);
            var second := Tick(first.pending, w'.now);
            Run(s, [w, w']) == RunOutcome(first.fired + second.fired,
                                          Rejected(first.fired, w.failsAt) + Rejected(second.fired, w'.failsAt),
                                          second.pending, true)
  {
    var first := Tick(s, w.now);
    var second := Tick(first.pending, w'.now);
    var sweeps := [w, w'];
    assert sweeps[1..] == [w'];
    assert [w'][1..] == [];
    var lostSecond := Rejected(second.fired, w'.failsAt);
    assert Run(second.pending, []) == RunOutcome([], [], second.pending, true);
    assert Run(first.pending, [w']) == RunOutcome(second.fired + [], lostSecond + [], second.pending, true);
    assert second.fired + [] == second.fired && lostSecond + [] == lostSecond;
  }
}
