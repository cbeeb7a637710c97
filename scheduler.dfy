/** The scheduler of bot/index.js: the module-level `scheduledMessages`
    map from announcement id to timer, `scheduleMessage`,
    `cancelScheduledMessage`, the timer callback, and the recovery pass of
    the `ready` handler. Time is an integer count of milliseconds passed in
    by the caller; the runtime's timer queue is the `armed` map, and a
    timer firing is the `Fire` method, called by whoever drives the clock. */
module Scheduling {
  import opened Announcements
  import Renderer
  import History

  /** The largest delay `setTimeout` honours (2^31 - 1 ms, about 24.8 days). */
  const MaxTimeout := 2147483647

  datatype ScheduleError = PastTime | HorizonExceeded

  /** `{ success: true, id }` or `{ success: false, error }`. */
  datatype ScheduleResult = Scheduled(id: Id) | Rejected(error: ScheduleError)

  datatype DelayCheck = Delay(ms: nat) | Reject(error: ScheduleError)

  /** The two checks of `scheduleMessage` and the delay it arms. Both
      comparisons are false for an Invalid Date, so such a time passes, and
      Node runs a timer whose delay is NaN after 1 ms. */
  function TimerDelay(time: Instant, now: Timestamp): (r: DelayCheck)
    ensures time.At? ==> (r.Delay? <==> now < time.ms <= now + MaxTimeout)
    ensures time.At? && time.ms <= now ==> r == Reject(PastTime)
    ensures time.At? && time.ms - now > MaxTimeout ==> r == Reject(HorizonExceeded)
    ensures r.Delay? ==> 1 <= r.ms <= MaxTimeout
    ensures time.At? && r.Delay? ==> now + r.ms == time.ms
    ensures time == InvalidDate ==> r == Delay(1)
  {
    match time
    case InvalidDate => Delay(1)
    case At(t) =>
      if t <= now then Reject(PastTime)
      else if t - now > MaxTimeout then Reject(HorizonExceeded)
      else Delay(t - now)
  }

  /** A timer the runtime holds: its delay and the `messageData` its
      callback closes over. */
  datatype Timer = Timer(delay: nat, job: Record)

  /** The arguments the timer callback passes to `sendDiscordMessage`;
      unlike an immediate send it keeps the record's attachment placement. */
  function JobMessage(r: Record): (o: Renderer.Outgoing)
    ensures o.attachmentPosition == r.attachmentPosition && o.files == r.files && o.content == r.content
    ensures o.channelId == r.channelId && o.roleId == r.roleId && o.buttons == r.buttons && o.embed == r.embed
  {
    Renderer.Outgoing(r.channelId, r.content, r.files, r.roleId, r.buttons, r.embed, r.attachmentPosition)
  }

  class Scheduler {
    /** `scheduledMessages`: announcement id to timer handle. */
    var timers: map<Id, nat>
    /** The timers still waiting in the runtime: handle to timer. */
    var armed: map<nat, Timer>
    /** The next handle `setTimeout` hands out; handles are never reused. */
    var nextHandle: nat

    ghost predicate Valid()
      reads this
    {
      && (forall id :: id in timers ==> timers[id] < nextHandle)
      && (forall h :: h in armed ==> h < nextHandle)
    }

    /** The ids whose mapped timer has neither fired nor been cleared. */
    ghost function Pending(): set<Id>
      reads this
    {
      set id | id in timers && timers[id] in armed
    }

    constructor ()
      ensures Valid() && timers == map[] && armed == map[] && nextHandle == 0
    {
      timers, armed, nextHandle := map[], map[], 0;
    }

    /** `scheduleMessage`: rejects a time that is not in the future or too
        far ahead and changes nothing; otherwise arms a fresh timer and
        maps the id to it (replacing any earlier mapping for that id). */
    method ScheduleMessage(data: Record, now: Timestamp) returns (r: ScheduleResult)
      requires Valid()
      modifies this
      ensures Valid()
      ensures match TimerDelay(data.scheduledTime, now)
        case Reject(e) =>
          && r == Rejected(e)
          && timers == old(timers) && armed == old(armed) && nextHandle == old(nextHandle)
        case Delay(ms) =>
          && r == Scheduled(data.id)
          && timers == old(timers)[data.id := old(nextHandle)]
          && armed == old(armed)[old(nextHandle) := Timer(ms, data)]
          && nextHandle == old(nextHandle) + 1
          && data.id in Pending()
    {
      match TimerDelay(data.scheduledTime, now)
      case Reject(e) =>
        r := Rejected(e);
      case Delay(ms) =>
        var handle := nextHandle;
        armed := armed[handle := Timer(ms, data)];
        nextHandle := nextHandle + 1;
        timers := timers[data.id := handle];
        r := Scheduled(data.id);
    }

    /** `cancelScheduledMessage`: true exactly when the id is in the map,
        which then loses it and whose timer is cleared. The map keeps the
        ids of timers that already fired, so for those it is true too. */
    method CancelScheduledMessage(id: Id) returns (canceled: bool)
      requires Valid()
      modifies this
      ensures Valid()
      ensures canceled <==> id in old(timers)
      ensures canceled ==> timers == old(timers) - {id} && armed == old(armed) - {old(timers)[id]}
      ensures !canceled ==> timers == old(timers) && armed == old(armed)
      ensures nextHandle == old(nextHandle)
      ensures id !in timers && id !in Pending()
    {
      canceled := id in timers;
      if canceled {
        armed := armed - {timers[id]};
        timers := timers - {id};
      }
    }

    /** A timer fires: the callback sends the captured announcement, then
        marks its record sent whatever the send reported (the result of
        `sendDiscordMessage` is ignored, and that function never throws),
        and never removes its own entry from `scheduledMessages`. */
    method Fire(handle: nat, now: Timestamp, platform: Renderer.Platform, store: History.HistoryStore)
      returns (d: Renderer.Delivery)
      requires Valid() && handle in armed
      modifies this, store
      ensures Valid()
      ensures timers == old(timers) && nextHandle == old(nextHandle)
      ensures armed == old(armed) - {handle}
      ensures d == Renderer.SendDiscordMessage(JobMessage(old(armed)[handle].job), platform)
      ensures store.records ==
        History.Patched(old(store.records), old(armed)[handle].job.id, History.MarkSent(now, None))
    {
      var job := armed[handle].job;
      armed := armed - {handle};
      d := Renderer.SendDiscordMessage(JobMessage(job), platform);
      var _ := store.Update(job.id, History.MarkSent(now, None));
    }

    /** One pass of the recovery loop: an item still pending and due in the
        future goes through `scheduleMessage`, whose verdict is ignored. */
    method RecoverItem(item: Record, now: Timestamp)
      requires Valid()
      modifies this
      ensures Valid()
      ensures if AwaitsDelivery(item, now) && TimerDelay(item.scheduledTime, now).Delay? then
          && timers == old(timers)[item.id := old(nextHandle)]
          && armed == old(armed)[old(nextHandle) := Timer(DelayOf(item.scheduledTime, now), item)]
          && nextHandle == old(nextHandle) + 1
        else
          timers == old(timers) && armed == old(armed) && nextHandle == old(nextHandle)
    {
      if item.scheduled && !item.sent && !item.canceled {
        if item.scheduledTime.At? && item.scheduledTime.ms > now {
          var _ := ScheduleMessage(item, now);
        }
      }
    }

    /** `RecoverItem` on the next history item, stated against the timers
        recovery has set so far (`done`, from handle `n0` on). */
    method RecoverNext(item: Record, now: Timestamp, ghost t0: map<Id, nat>, ghost a0: map<nat, Timer>,
                       ghost n0: nat, ghost done: seq<Record>) returns (ghost done': seq<Record>)
      requires Valid()
      requires nextHandle == n0 + |done|
      requires timers == TimersAfter(t0, n0, done) && armed == ArmedAfter(a0, n0, done, now)
      modifies this
      ensures Valid()
      ensures done' == if AwaitsDelivery(item, now) && TimerDelay(item.scheduledTime, now).Delay? then done + [item] else done
      ensures nextHandle == n0 + |done'|
      ensures timers == TimersAfter(t0, n0, done') && armed == ArmedAfter(a0, n0, done', now)
    {
      RecoverItem(item, now);
      if AwaitsDelivery(item, now) && TimerDelay(item.scheduledTime, now).Delay? {
        AfterAppend(t0, a0, n0, done, item, now);
        done' := done + [item];
      } else {
        done' := done;
      }
    }

    /** The recovery loop of the `ready` handler: every history item that
        is still pending and due in the future goes through
        `scheduleMessage` again. */
    method Recover(history: seq<Record>, now: Timestamp)
      requires Valid()
      modifies this
      ensures Valid()
      ensures nextHandle == old(nextHandle) + |Rearmed(history, now)|
      ensures timers == TimersAfter(old(timers), old(nextHandle), Rearmed(history, now))
      ensures armed == ArmedAfter(old(armed), old(nextHandle), Rearmed(history, now), now)
      ensures forall x :: x in Rearmed(history, now) ==> x.id in Pending()
    {
      ghost var t0, a0, n0 := timers, armed, nextHandle;
      ghost var done: seq<Record> := [];
      var i := 0;
      assert history[..0] == [];
      while i < |history|
        invariant 0 <= i <= |history|
        invariant Valid()
        invariant done == Rearmed(history[..i], now)
        invariant nextHandle == n0 + |done|
        invariant timers == TimersAfter(t0, n0, done)
        invariant armed == ArmedAfter(a0, n0, done, now)
      {
        RearmedStep(history, i, now);
        done := RecoverNext(history[i], now, t0, a0, n0, done);
        i := i + 1;
      }
      assert history[..|history|] == history;
      RearmedAreArmed(t0, a0, n0, done, now);
    }
  }

  /** The recovery filter: scheduled, not sent, not canceled, and due
      strictly after `now`. */
  predicate AwaitsDelivery(r: Record, now: Timestamp)
    ensures AwaitsDelivery(r, now) ==> TimerDelay(r.scheduledTime, now) != Reject(PastTime)
    ensures r.scheduledTime == InvalidDate ==> !AwaitsDelivery(r, now)
  {
    r.scheduled && !r.sent && !r.canceled && r.scheduledTime.At? && r.scheduledTime.ms > now
  }

  /** The items recovery actually re-arms, in history order: those the
      filter lets through and `scheduleMessage` then accepts. */
  function Rearmed(history: seq<Record>, now: Timestamp): (r: seq<Record>)
    ensures |r| <= |history|
    ensures forall x :: x in r ==> AwaitsDelivery(x, now) && x.scheduledTime.ms - now <= MaxTimeout
  {
    if history == [] then []
    else
      var item := history[|history| - 1];
      Rearmed(history[..|history| - 1], now)
        + (if AwaitsDelivery(item, now) && TimerDelay(item.scheduledTime, now).Delay? then [item] else [])
  }

  lemma RearmedStep(history: seq<Record>, i: nat, now: Timestamp)
    requires i < |history|
    ensures AwaitsDelivery(history[i], now) && TimerDelay(history[i].scheduledTime, now).Delay? ==>
      Rearmed(history[..i + 1], now) == Rearmed(history[..i], now) + [history[i]]
    ensures !(AwaitsDelivery(history[i], now) && TimerDelay(history[i].scheduledTime, now).Delay?) ==>
      Rearmed(history[..i + 1], now) == Rearmed(history[..i], now)
  {
    assert history[..i + 1][..i] == history[..i];
  }

  /** Recovery re-arms exactly the pending future items that lie within
      the timer horizon; past-due pending items are skipped. */
  lemma {:induction false} RearmedExactly(history: seq<Record>, now: Timestamp, x: Record)
    ensures x in Rearmed(history, now) <==>
      x in history && AwaitsDelivery(x, now) && x.scheduledTime.ms - now <= MaxTimeout
  {
    if history != [] {
      var init := history[..|history| - 1];
      RearmedExactly(init, now, x);
      assert history == init + [history[|history| - 1]];
    }
  }

  /** `scheduledMessages` after the timers for `items` were set one after
      the other, starting at handle `start`. */
  function TimersAfter(t: map<Id, nat>, start: nat, items: seq<Record>): map<Id, nat> {
    if items == [] then t
    else
      var init := items[..|items| - 1];
      var last := items[|items| - 1];
      TimersAfter(t, start, init)[last.id := start + |init|]
  }

  function Ids(items: seq<Record>): set<Id> {
    set x | x in items :: x.id
  }

  /** Setting timers for `items` adds exactly their ids, maps each of them
      to one of the new handles, and leaves every other id's timer alone. */
  lemma {:induction false} TimersAfterShape(t: map<Id, nat>, start: nat, items: seq<Record>)
    ensures TimersAfter(t, start, items).Keys == t.Keys + Ids(items)
    ensures forall id :: id in Ids(items) ==>
      id in TimersAfter(t, start, items) && start <= TimersAfter(t, start, items)[id] < start + |items|
    ensures forall id :: id in t && id !in Ids(items) ==> TimersAfter(t, start, items)[id] == t[id]
  {
    if items != [] {
      var init := items[..|items| - 1];
      var last := items[|items| - 1];
      TimersAfterShape(t, start, init);
      assert items == init + [last];
      assert Ids(items) == Ids(init) + {last.id};
    }
  }

  /** The delay `scheduleMessage` hands to `setTimeout` for an accepted time. */
  function DelayOf(time: Instant, now: Timestamp): nat {
    match TimerDelay(time, now)
    case Delay(ms) => ms
    case Reject(_) => 0
  }

  /** The runtime's timer queue after the same sequence of `setTimeout`. */
  function ArmedAfter(a: map<nat, Timer>, start: nat, items: seq<Record>, now: Timestamp): map<nat, Timer> {
    if items == [] then a
    else
      var init := items[..|items| - 1];
      var last := items[|items| - 1];
      ArmedAfter(a, start, init, now)[start + |init| := Timer(DelayOf(last.scheduledTime, now), last)]
  }

  /** The queue gains one timer per item under the handles that follow
      `start`, and the timers already armed below `start` stay as they were. */
  lemma {:induction false} ArmedAfterShape(a: map<nat, Timer>, start: nat, items: seq<Record>, now: Timestamp)
    ensures forall j :: start <= j < start + |items| ==>
      j in ArmedAfter(a, start, items, now) && ArmedAfter(a, start, items, now)[j].job == items[j - start]
    ensures forall h :: h in a && h < start ==> h in ArmedAfter(a, start, items, now) && ArmedAfter(a, start, items, now)[h] == a[h]
  {
    if items != [] {
      var init := items[..|items| - 1];
      ArmedAfterShape(a, start, init, now);
    }
  }

  /** Every re-armed id ends up mapped to a timer that is still armed. */
  lemma RearmedAreArmed(t: map<Id, nat>, a: map<nat, Timer>, start: nat, items: seq<Record>, now: Timestamp)
    ensures forall x :: x in items ==>
      x.id in TimersAfter(t, start, items) && TimersAfter(t, start, items)[x.id] in ArmedAfter(a, start, items, now)
  {
    TimersAfterShape(t, start, items);
    ArmedAfterShape(a, start, items, now);
    forall x | x in items
      ensures x.id in TimersAfter(t, start, items) && TimersAfter(t, start, items)[x.id] in ArmedAfter(a, start, items, now)
    {
      assert x.id in Ids(items);
    }
  }

  lemma AfterAppend(t: map<Id, nat>, a: map<nat, Timer>, start: nat, items: seq<Record>, x: Record, now: Timestamp)
    ensures TimersAfter(t, start, items + [x]) == TimersAfter(t, start, items)[x.id := start + |items|]
    ensures ArmedAfter(a, start, items + [x], now)
      == ArmedAfter(a, start, items, now)[start + |items| := Timer(DelayOf(x.scheduledTime, now), x)]
  {
    assert (items + [x])[..|items|] == items;
  }
}
