/**
 The bot as a whole: the two stored documents, and the four ways they change — the two checker
 loops' passes and the two reminder commands. Each step returns the new store together with what
 it emitted: the notifications for the chat, or the command's result.
 */
module Engine {
  import opened Wrappers
  import opened Reminders
  import Commands
  import Scheduler
  import Portal

  /**
   The snapshot document (its `"content"` entry, absent before the first successful fetch) and
   the reminders document.
   */
  datatype Store = Store(snapshot: Option<string>, reminders: seq<Reminder>)

  /** A notification handed to the messaging backend. */
  datatype Event = PortalChanged | ReminderDue(message: string)

  /** What the bot starts from when neither document exists yet. */
  const Fresh: Store := Store(None, [])

  /** The invariant every step keeps: the reminders are in due-time order. */
  predicate Valid(st: Store) {
    Sorted(st.reminders)
  }

  /** One notification per fired reminder, in firing order. */
  function Notices(fired: seq<Reminder>): (e: seq<Event>)
    ensures |e| == |fired|
    ensures forall i :: 0 <= i < |fired| ==> e[i] == ReminderDue(fired[i].message)
  {
    if |fired| == 0 then [] else [ReminderDue(fired[0].message)] + Notices(fired[1..])
  }

  /**
   A pass of the portal checker. It only touches the snapshot, announces at most one change,
   and a failed fetch leaves the store as it was.
   */
  function PortalStep(st: Store, fetched: Option<string>): (r: (Store, seq<Event>))
    ensures r.0.reminders == st.reminders
    ensures r.1 == [] || r.1 == [PortalChanged]
    ensures r.1 == [PortalChanged] <==> fetched.Some? && st.snapshot != fetched
    ensures fetched.None? ==> r.0 == st
    ensures fetched.Some? ==> r.0.snapshot == fetched
  {
    var p := Portal.Check(st.snapshot, fetched);
    (st.(snapshot := p.snapshot), if p.changed then [PortalChanged] else [])
  }

  /**
   A pass of the reminder checker. It only touches the reminders, keeps exactly the records due
   after `now` (the kept part of the pass, repeats included) in their order, and sends one notice
   per record due by `now`. When nothing is due, the store is not written at all.
   */
  function SchedulerStep(st: Store, now: int): (r: (Store, seq<Event>))
    ensures r.0.snapshot == st.snapshot
    ensures Valid(st) ==> Valid(r.0)
    ensures r.0.reminders == Scheduler.Tick(st.reminders, now).pending
    ensures forall x :: x in r.0.reminders <==> x in st.reminders && now < x.due
    ensures var fired := Scheduler.Tick(st.reminders, now).fired;
            && |r.1| == |fired|
            && (forall i :: 0 <= i < |fired| ==> r.1[i] == ReminderDue(fired[i].message))
            && (forall x :: x in fired <==> x in st.reminders && x.due <= now)
    ensures |r.1| == 0 ==> r.0 == st
  {
    var o := Scheduler.Tick(st.reminders, now);
    Scheduler.TickPartitions(st.reminders, now);
    assert Valid(st) ==> Sorted(o.pending) by {
      if Valid(st) {
        Scheduler.TickKeepsOrder(st.reminders, now);
      }
    }
    var st' := if o.saved then st.(reminders := o.pending) else st;
    (st', Notices(o.fired))
  }

  /**
   `/addreminder`. It only touches the reminders; on success the list grows by exactly the
   record returned and stays sorted; on any error the store is unchanged.
   */
  function AddStep(st: Store, args: seq<string>, p: Commands.Parsers, now: int)
    : (r: (Store, Result<Reminder, Commands.AddError>))
    ensures r.0.snapshot == st.snapshot
    ensures Valid(st) ==> Valid(r.0)
    ensures r.1.Err? ==> r.0 == st
    ensures r.1.Ok? ==>
              && now <= r.1.value.due
              && multiset(r.0.reminders) == multiset(st.reminders) + multiset{r.1.value}
  {
    match Commands.AddReminder(args, p, now, st.reminders)
    case Err(e) => (st, Err(e))
    case Ok((added, list')) => (st.(reminders := list'), Ok(added))
  }

  /**
   `/delreminder`. It only touches the reminders; on success exactly the returned record is gone
   and the list stays sorted; on any error the store is unchanged.
   */
  function DeleteStep(st: Store, args: seq<string>): (r: (Store, Result<Reminder, Commands.DelError>))
    ensures r.0.snapshot == st.snapshot
    ensures Valid(st) ==> Valid(r.0)
    ensures r.1.Err? ==> r.0 == st
    ensures r.1.Ok? ==>
              multiset(r.0.reminders) + multiset{r.1.value} == multiset(st.reminders)
  {
    match Commands.DelReminder(args, st.reminders)
    case Err(e) => (st, Err(e))
    case Ok((removed, list')) =>
      assert Valid(st) ==> Sorted(list') by {
        if Valid(st) {
          Commands.DelKeepsSorted(args, st.reminders);
        }
      }
      (st.(reminders := list'), Ok(removed))
  }

  /** Anything that can happen to the store. */
  datatype Action =
    | PortalPass(fetched: Option<string>)
    | ReminderPass(now: int)
    | AddCommand(args: seq<string>, parsers: Commands.Parsers, now: int)
    | DeleteCommand(args: seq<string>)

  function Apply(st: Store, a: Action): Store {
    match a
    case PortalPass(fetched) => PortalStep(st, fetched).0
    case ReminderPass(now) => SchedulerStep(st, now).0
    case AddCommand(args, p, now) => AddStep(st, args, p, now).0
    case DeleteCommand(args) => DeleteStep(st, args).0
  }

  function ApplyAll(st: Store, actions: seq<Action>): Store
    decreases |actions|
  {
    if |actions| == 0 then st else ApplyAll(Apply(st, actions[0]), actions[1..])
  }

  /**
   Whatever happens, in whatever order, the reminder list is always sorted by due time, so the
   ordinals the list shows and deletion uses follow the time order.
   */
  lemma {:induction false} AlwaysSorted(st: Store, actions: seq<Action>)
    requires Valid(st)
    ensures Valid(ApplyAll(st, actions))
    decreases |actions|
  {
    if |actions| > 0 {
      AlwaysSorted(Apply(st, actions[0]), actions[1..]);
    }
  }

  lemma FromFreshAlwaysSorted(actions: seq<Action>)
    ensures Sorted(ApplyAll(Fresh, actions).reminders)
  {
    AlwaysSorted(Fresh, actions);
  }
}
