/** End-to-end traces of the pipeline, modelled on fresh state: a form
    submission goes through `POST /api/send-news`, then the timer fires or
    the announcement is canceled. Each method builds its own store,
    scheduler and user, and its contract states the resulting history
    document and the Discord payloads in terms of what it returns. */
module Scenarios {
  import opened Announcements
  import opened Text
  import opened Renderer
  import History
  import Scheduling
  import Server
  import Client

  const Now := 1_000_000

  function TextRequest(channel: string, content: string, time: Option<Instant>): Server.SendNewsRequest {
    Server.SendNewsRequest(channel, "", content, time, Server.Absent, Server.Absent, "", "", [])
  }

  /** An immediate text announcement to channel `C1`: one message whose
      content is exactly the text, no pings, and a history record marked
      sent with the Discord message id. */
  method ImmediateText(p: Platform) returns (reply: Server.Reply, stored: seq<Record>, plan: seq<Payload>)
    requires p.channel == TextChannel && p.first.Sent?
    ensures reply == Server.Reply(200, Some(p.first.messageId))
    ensures plan == [Message(Some("Hello"), [], [], [], NoPings)]
    ensures |stored| == 1 && stored[0].id == "a1" && stored[0].channelId == "C1"
    ensures stored[0].sent && !stored[0].canceled && stored[0].messageId == Some(p.first.messageId)
    ensures stored[0].sentAt == Some(Now)
  {
    var store := new History.HistoryStore();
    var scheduler := new Scheduling.Scheduler();
    var user := new Server.User("u1", "operator", "", "0");
    var req := TextRequest("C1", "Hello", None);
    var rec := Server.NewRecord(req, "a1", Now, Server.AuthorOf(user, ""));
    assert ActionRows([]) == [];
    plan := Render(Server.ImmediateMessage(rec));
    reply := Server.SendNews(req, "a1", Now, user, store, scheduler, p);
    stored := store.records;
    assert [] + [rec] == [rec];
    assert History.IndexOf([rec], "a1") == 0;
  }

  /** An embed typed into the form with a colour `#` followed by six hex
      digits, and no role, reaches Discord as a single message with no
      text of its own and one embed carrying the trimmed title and text
      (each left out when blank) and the value of those digits. */
  lemma EmbedFromForm(title: string, body: string, d: string)
    requires IsHex6(d)
    ensures var e := Client.EmbedObject(title, body, "#" + d);
      var plan := Render(Outgoing("C1", body, [], None, [], Some(e), "start"));
      && |plan| == 1
      && plan[0].content.None?
      && plan[0].embeds == [Embed(IfSet(Trim(title)), IfSet(Trim(body)), Some(HexValue(d)), None, None, None)]
  {
    Client.HashHexAccepted(d);
    Client.AcceptedHexReachesBot(title, body, "#" + d);
    assert ("#" + d)[1..] == d;
  }

  /** A colour such as `notacolor` leaves the embed without colour, and
      the announcement is still delivered. */
  lemma UnknownColourIgnored(colour: string, p: Platform)
    requires colour == "notacolor"
    requires p.channel == TextChannel && p.first.Sent?
    ensures var o := Outgoing("C1", "body", [], None, [],
                              Some(EmbedData("T", "", ColorText(colour), "", "", "")), "start");
      && Render(o)[0].embeds[0].color.None?
      && SendDiscordMessage(o, p) == Delivered(p.first.messageId)
  {
    var o := Outgoing("C1", "body", [], None, [],
                      Some(EmbedData("T", "", ColorText(colour), "", "", "")), "start");
    assert Utf16Length("T") <= 2;
    assert BuildersAccept(o);
    BadColourIgnored(colour, 0);
    assert |Render(o)| == 1;
  }

  /** Scheduled ten seconds ahead: accepted with the announcement id, one
      timer armed; when it fires the message goes out once and the record
      is marked sent. */
  method ScheduledThenFired(p: Platform) returns (reply: Server.Reply, d: Delivery, stored: seq<Record>, left: map<nat, Scheduling.Timer>)
    ensures reply == Server.Reply(200, Some("a1"))
    ensures |stored| == 1 && stored[0].sent && stored[0].sentAt == Some(Now + 10_000)
    ensures stored[0].messageId.None?
    ensures d == SendDiscordMessage(Scheduling.JobMessage(stored[0]), p)
    ensures left == map[]
  {
    var store := new History.HistoryStore();
    var scheduler := new Scheduling.Scheduler();
    var user := new Server.User("u1", "operator", "", "0");
    var req := TextRequest("C1", "Hello", Some(At(Now + 10_000)));
    var rec := Server.NewRecord(req, "a1", Now, Server.AuthorOf(user, ""));
    reply := Server.SendNews(req, "a1", Now, user, store, scheduler, p);
    assert store.records == [rec];
    assert scheduler.armed == map[0 := Scheduling.Timer(10_000, rec)];
    d := scheduler.Fire(0, Now + 10_000, p, store);
    assert History.IndexOf([rec], "a1") == 0;
    stored := store.records;
    left := scheduler.armed;
    assert scheduler.armed == map[0 := Scheduling.Timer(10_000, rec)] - {0};
  }

  /** Whatever the send reports, a fired announcement is recorded as sent:
      a delivery that failed leaves no trace in history. */
  method FailedFireStillMarkedSent(p: Platform) returns (d: Delivery, stored: seq<Record>)
    requires p.channel == NoChannel
    ensures d == Failed(ChannelNotFound)
    ensures |stored| == 1 && stored[0].sent && stored[0].messageId.None?
  {
    var reply, left;
    reply, d, stored, left := ScheduledThenFired(p);
  }

  /** Canceled before its time: the record is marked canceled and not sent,
      and no timer is left to fire. */
  method ScheduledThenCanceled(p: Platform) returns (reply: Server.Reply, stored: seq<Record>, left: map<nat, Scheduling.Timer>)
    ensures reply == Server.Reply(200, None)
    ensures |stored| == 1 && stored[0].canceled && !stored[0].sent && stored[0].canceledAt == Some(Now + 1)
    ensures left == map[]
  {
    var store := new History.HistoryStore();
    var scheduler := new Scheduling.Scheduler();
    var user := new Server.User("u1", "operator", "", "0");
    var req := TextRequest("C1", "Hello", Some(At(Now + 10_000)));
    var rec := Server.NewRecord(req, "a1", Now, Server.AuthorOf(user, ""));
    var _ := Server.SendNews(req, "a1", Now, user, store, scheduler, p);
    assert store.records == [rec];
    assert scheduler.timers == map["a1" := 0];
    reply := Server.CancelScheduled("a1", Now + 1, store, scheduler);
    assert History.IndexOf([rec], "a1") == 0;
    stored := store.records;
    left := scheduler.armed;
  }

  /** Canceling twice: the second request finds nothing and answers 404,
      leaving history as the first left it. */
  method CancelTwice(p: Platform) returns (first: Server.Reply, second: Server.Reply, stored: seq<Record>)
    ensures first.status == 200 && second.status == 404
    ensures |stored| == 1 && stored[0].canceled && stored[0].canceledAt == Some(Now + 1)
  {
    var store := new History.HistoryStore();
    var scheduler := new Scheduling.Scheduler();
    var user := new Server.User("u1", "operator", "", "0");
    var req := TextRequest("C1", "Hello", Some(At(Now + 10_000)));
    var rec := Server.NewRecord(req, "a1", Now, Server.AuthorOf(user, ""));
    var _ := Server.SendNews(req, "a1", Now, user, store, scheduler, p);
    assert store.records == [rec];
    first := Server.CancelScheduled("a1", Now + 1, store, scheduler);
    assert History.IndexOf([rec], "a1") == 0;
    second := Server.CancelScheduled("a1", Now + 2, store, scheduler);
    stored := store.records;
  }

  /** Canceling after the timer fired still succeeds, because the fired
      timer stays mapped: the record ends up both sent and canceled. */
  method CancelAfterFire(p: Platform) returns (reply: Server.Reply, stored: seq<Record>)
    ensures reply == Server.Reply(200, None)
    ensures |stored| == 1 && stored[0].sent && stored[0].canceled
  {
    var store := new History.HistoryStore();
    var scheduler := new Scheduling.Scheduler();
    var user := new Server.User("u1", "operator", "", "0");
    var req := TextRequest("C1", "Hello", Some(At(Now + 10_000)));
    var rec := Server.NewRecord(req, "a1", Now, Server.AuthorOf(user, ""));
    var _ := Server.SendNews(req, "a1", Now, user, store, scheduler, p);
    assert store.records == [rec];
    assert scheduler.armed == map[0 := Scheduling.Timer(10_000, rec)];
    var _ := scheduler.Fire(0, Now + 10_000, p, store);
    assert History.IndexOf([rec], "a1") == 0;
    assert "a1" in scheduler.timers;
    reply := Server.CancelScheduled("a1", Now + 20_000, store, scheduler);
    stored := store.records;
  }

  /** A time in the past is refused with 400, but the record was written
      first and stays, scheduled and never to be sent. */
  method PastTimeRejected(p: Platform) returns (reply: Server.Reply, stored: seq<Record>, left: map<nat, Scheduling.Timer>)
    ensures reply.status == 400
    ensures |stored| == 1 && stored[0].scheduled && !stored[0].sent && !stored[0].canceled
    ensures left == map[]
  {
    var store := new History.HistoryStore();
    var scheduler := new Scheduling.Scheduler();
    var user := new Server.User("u1", "operator", "", "0");
    var req := TextRequest("C1", "Hello", Some(At(Now - 1)));
    reply := Server.SendNews(req, "a1", Now, user, store, scheduler, p);
    stored := store.records;
    left := scheduler.armed;
  }

  /** A time more than 2147483647 ms ahead is refused with 400, but its
      record stays in history, still pending. After a restart that comes
      close enough to that time, recovery re-arms it, so the refused
      announcement goes out after all. */
  method TooFarThenRearmed(p: Platform) returns (reply: Server.Reply, stored: seq<Record>, rearmed: seq<Record>)
    ensures reply.status == 400
    ensures |stored| == 1 && stored[0].scheduled && !stored[0].sent && !stored[0].canceled
    ensures rearmed == Scheduling.Rearmed(stored, Now + 2) && rearmed == stored
  {
    var store := new History.HistoryStore();
    var scheduler := new Scheduling.Scheduler();
    var user := new Server.User("u1", "operator", "", "0");
    var req := TextRequest("C1", "Hello", Some(At(Now + Scheduling.MaxTimeout + 1)));
    reply := Server.SendNews(req, "a1", Now, user, store, scheduler, p);
    stored := store.records;
    rearmed := Scheduling.Rearmed(stored, Now + 2);
    assert stored[..0] == [];
  }
}
