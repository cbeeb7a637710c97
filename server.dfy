/** The two announcement handlers of web/server.js: `POST /api/send-news`
    (validation, role mapping, button filter, record construction, history
    append, then schedule or send and mark sent) and
    `POST /api/cancel-scheduled/:id`. Authentication, CSRF, uploads and the
    JSON and file plumbing are outside; a form field holding JSON arrives
    already parsed, or as the fact that it did not parse. */
module Server {
  import opened Announcements
  import opened Text
  import Renderer
  import History
  import Scheduling

  /** A form field that carries JSON: missing or empty, parsed, or text
      that `JSON.parse` throws on. */
  datatype JsonField<T> = Absent | Parsed(value: T) | Unparsable

  /** An element of the parsed `buttons` array: an object whose `label`
      and `url` are strings (empty when missing), or `null`. */
  datatype RawButton = NullButton | ButtonObject(caption: string, url: string)

  /** The fields of `req.body` the handler reads, plus the uploaded files. */
  datatype SendNewsRequest = SendNewsRequest(
    channel: string,
    role: string,
    content: string,
    scheduledTime: Option<Instant>,
    buttons: JsonField<seq<RawButton>>,
    embed: JsonField<EmbedData>,
    attachmentPosition: string,
    timezone: string,
    files: seq<FileInfo>)

  /** `!channel || (!content && !embed)`: the embed counts as given as soon
      as its raw field is non-empty, whether or not it parses. */
  predicate MissingRequired(req: SendNewsRequest) {
    req.channel == "" || (req.content == "" && req.embed.Absent?)
  }

  /** The role select: `'everyone'` is the broadcast, an empty choice is
      no mention, anything else is a role id. */
  function MapRole(role: string): (r: Option<string>)
    ensures role == "everyone" ==> r == Some("@everyone")
    ensures role != "everyone" && role != "" ==> r == Some(role)
    ensures role == "" ==> r == None
  {
    if role == "everyone" then Some("@everyone")
    else if role != "" then Some(role)
    else None
  }

  /** Chosen in the form, the role pings exactly what was selected: the
      broadcast for `'everyone'`, that one role otherwise, nobody when
      nothing was chosen. */
  lemma RoleSelectionPings(role: string)
    ensures var m := Renderer.ResolveMention(MapRole(role));
      && (role == "everyone" ==> m.allowed == Renderer.AllowedMentions(["everyone"], [], []))
      && (role != "everyone" && role != "@everyone" && role != "" ==>
            m.allowed == Renderer.AllowedMentions([], [role], []) && m.text == Some("<@&" + role + ">"))
      && (role == "" ==> m.text.None? && m.allowed == Renderer.NoPings)
  {
  }

  const MaxButtons := 5
  const MaxLabelLength := 80

  /** `btn && btn.label && btn.url && btn.label.length <= 80 && /^https?:\/\//i.test(btn.url)`. */
  predicate ButtonAllowed(b: RawButton) {
    && b.ButtonObject?
    && b.caption != "" && b.url != ""
    && Utf16Length(b.caption) <= MaxLabelLength
    && HasHttpScheme(b.url)
  }

  /** `buttonArray.filter(...)`: the allowed buttons in their order. */
  function AllowedButtons(xs: seq<RawButton>): (r: seq<Button>)
    ensures |r| <= |xs|
    ensures forall b :: b in r ==> ButtonObject(b.caption, b.url) in xs && ButtonAllowed(ButtonObject(b.caption, b.url))
    ensures (forall i :: 0 <= i < |xs| ==> ButtonAllowed(xs[i])) ==>
      |r| == |xs| && forall i :: 0 <= i < |r| ==> xs[i] == ButtonObject(r[i].caption, r[i].url)
  {
    if xs == [] then []
    else
      var b := xs[|xs| - 1];
      AllowedButtons(xs[..|xs| - 1]) + (if ButtonAllowed(b) then [Button(b.caption, b.url)] else [])
  }

  /** Every kept button passed the filter, and every button that passes is
      kept. */
  lemma {:induction false} AllowedButtonsExactly(xs: seq<RawButton>, b: Button)
    ensures b in AllowedButtons(xs) <==> ButtonObject(b.caption, b.url) in xs && ButtonAllowed(ButtonObject(b.caption, b.url))
  {
    if xs != [] {
      var init := xs[..|xs| - 1];
      AllowedButtonsExactly(init, b);
      assert xs == init + [xs[|xs| - 1]];
    }
  }

  /** The filter keeps the relative order of the buttons it keeps. */
  lemma {:induction false} AllowedButtonsAppend(a: seq<RawButton>, b: seq<RawButton>)
    ensures AllowedButtons(a + b) == AllowedButtons(a) + AllowedButtons(b)
  {
    if b == [] {
      assert a + b == a;
    } else {
      assert (a + b)[..|a + b| - 1] == a + b[..|b| - 1];
      AllowedButtonsAppend(a, b[..|b| - 1]);
    }
  }

  /** The stored button list: the first five allowed buttons, or none when
      the field is missing or does not parse. */
  function FilterButtons(field: JsonField<seq<RawButton>>): (r: seq<Button>)
    ensures |r| <= MaxButtons
    ensures field.Parsed? ==>
      && r <= AllowedButtons(field.value)
      && |r| == (if |AllowedButtons(field.value)| < MaxButtons then |AllowedButtons(field.value)| else MaxButtons)
    ensures !field.Parsed? ==> r == []
  {
    match field
    case Parsed(xs) =>
      var kept := AllowedButtons(xs);
      if |kept| <= MaxButtons then kept else kept[..MaxButtons]
    case _ => []
  }

  /** Every stored button has a label of at most 80 UTF-16 units and an
      http(s) URL, so all of them become link buttons, in order. */
  lemma StoredButtonsAllRender(field: JsonField<seq<RawButton>>)
    ensures var r := FilterButtons(field);
      && |Renderer.LinkButtons(r)| == |r|
      && forall i :: 0 <= i < |r| ==>
           && Utf16Length(r[i].caption) <= MaxLabelLength && HasHttpScheme(r[i].url)
           && Renderer.LinkButtons(r)[i] == Renderer.LinkButton(r[i].caption, r[i].url)
  {
    var r := FilterButtons(field);
    if field.Parsed? {
      forall i | 0 <= i < |r|
        ensures r[i].caption != "" && r[i].url != ""
        ensures Utf16Length(r[i].caption) <= MaxLabelLength && HasHttpScheme(r[i].url)
      {
        assert r[i] in AllowedButtons(field.value);
        AllowedButtonsExactly(field.value, r[i]);
      }
    }
  }

  /** The logged-in user (`req.user`); only `timezone` is ever written. */
  class User {
    const id: string
    const username: string
    const avatar: string
    const discriminator: string
    var timezone: string

    constructor (id: string, username: string, avatar: string, discriminator: string)
      ensures this.id == id && this.username == username
      ensures this.avatar == avatar && this.discriminator == discriminator && timezone == ""
    {
      this.id, this.username, this.avatar, this.discriminator := id, username, avatar, discriminator;
      timezone := "";
    }
  }

  /** The `author` object stored with the record: the session user's
      identity, and the timezone sent with the form, `UTC` when none was. */
  function AuthorOf(user: User, timezone: string): (a: Author)
    ensures a.id == user.id && a.username == user.username
    ensures a.avatar == user.avatar && a.discriminator == user.discriminator
    ensures timezone != "" ==> a.timezone == timezone
    ensures timezone == "" ==> a.timezone == "UTC"
    ensures a.timezone != ""
  {
    Author(user.id, user.username, user.avatar, user.discriminator, if timezone == "" then "UTC" else timezone)
  }

  function ParsedEmbed(field: JsonField<EmbedData>): (r: Option<EmbedData>)
    ensures r.Some? <==> field.Parsed?
    ensures field.Parsed? ==> r == Some(field.value)
  {
    if field.Parsed? then Some(field.value) else None
  }

  /** The `messageData` record written to history for an accepted request. */
  function NewRecord(req: SendNewsRequest, id: Id, now: Timestamp, author: Author): (r: Record)
    ensures r.id == id && r.channelId == req.channel && r.content == req.content && r.files == req.files
    ensures r.scheduled <==> req.scheduledTime.Some?
    ensures r.sent <==> req.scheduledTime.None?
    ensures !r.canceled && r.sentAt.None? && r.messageId.None? && r.canceledAt.None?
    ensures r.attachmentPosition == if req.attachmentPosition == "" then "start" else req.attachmentPosition
    ensures r.scheduledTime == if req.scheduledTime.Some? then req.scheduledTime.value else At(now)
    ensures r.createdAt == now
    ensures r.roleId == MapRole(req.role) && r.buttons == FilterButtons(req.buttons)
    ensures r.embed == ParsedEmbed(req.embed) && r.author == author
  {
    Record(
      id := id,
      channelId := req.channel,
      content := req.content,
      files := req.files,
      roleId := MapRole(req.role),
      buttons := FilterButtons(req.buttons),
      embed := ParsedEmbed(req.embed),
      attachmentPosition := if req.attachmentPosition == "" then "start" else req.attachmentPosition,
      scheduled := req.scheduledTime.Some?,
      scheduledTime := if req.scheduledTime.Some? then req.scheduledTime.value else At(now),
      createdAt := now,
      sent := req.scheduledTime.None?,
      canceled := false,
      author := author,
      sentAt := None,
      messageId := None,
      canceledAt := None)
  }

  /** A new record is in exactly one of two states, scheduled and waiting
      or already flagged sent (before any send was attempted), never
      canceled, and it holds at most five buttons. */
  lemma NewRecordState(req: SendNewsRequest, id: Id, now: Timestamp, author: Author)
    ensures var r := NewRecord(req, id, now, author);
      && (r.scheduled != r.sent) && !r.canceled && |r.buttons| <= MaxButtons
      && (r.scheduled ==> (Scheduling.AwaitsDelivery(r, now) <==> r.scheduledTime.At? && r.scheduledTime.ms > now))
  {
  }

  /** The arguments of the immediate `sendDiscordMessage` call: no
      attachment position is passed, so the default `'start'` applies. */
  function ImmediateMessage(r: Record): (o: Renderer.Outgoing)
    ensures o.attachmentPosition == "start"
    ensures o.channelId == r.channelId && o.content == r.content && o.files == r.files
    ensures o.roleId == r.roleId && o.buttons == r.buttons && o.embed == r.embed
    ensures |Renderer.Render(o)| == 1 && Renderer.Render(o)[0].files == Renderer.Attachments(r.files)
  {
    Renderer.Outgoing(r.channelId, r.content, r.files, r.roleId, r.buttons, r.embed, "start")
  }

  /** The required-field check looks at the raw embed field only: an
      embed that does not parse lets an announcement with no text through,
      and what goes out is a message with no embed and, with no role
      chosen, empty content. */
  lemma UnparsableEmbedPassesCheck(req: SendNewsRequest, id: Id, now: Timestamp, author: Author)
    requires req.channel != "" && req.content == "" && req.embed.Unparsable?
    ensures !MissingRequired(req)
    ensures var plan := Renderer.Render(ImmediateMessage(NewRecord(req, id, now, author)));
      && plan[0].embeds == []
      && (req.role == "" ==> plan[0].content == Some(""))
  {
  }

  /** The HTTP status and, on success, the announcement or message id. */
  datatype Reply = Reply(status: nat, messageId: Option<string>)

  /** `POST /api/send-news`. The record is appended before the schedule
      is checked or the send attempted, and stays when either fails. */
  method SendNews(req: SendNewsRequest, id: Id, now: Timestamp, user: User,
                  store: History.HistoryStore, scheduler: Scheduling.Scheduler,
                  platform: Renderer.Platform)
    returns (reply: Reply)
    requires scheduler.Valid()
    modifies user, store, scheduler
    ensures scheduler.Valid()
    ensures MissingRequired(req) ==>
      && reply == Reply(400, None)
      && store.records == old(store.records)
      && unchanged(user) && unchanged(scheduler)
    ensures !MissingRequired(req) ==>
      && user.timezone == (if req.timezone != "" then req.timezone else old(user.timezone))
      && var rec := NewRecord(req, id, now, AuthorOf(user, req.timezone));
      && (req.scheduledTime.Some? ==>
            && store.records == old(store.records) + [rec]
            && match Scheduling.TimerDelay(rec.scheduledTime, now)
               case Delay(ms) =>
                 && reply == Reply(200, Some(id))
                 && scheduler.timers == old(scheduler.timers)[id := old(scheduler.nextHandle)]
                 && scheduler.armed == old(scheduler.armed)[old(scheduler.nextHandle) := Scheduling.Timer(ms, rec)]
               case Reject(_) =>
                 && reply == Reply(400, None)
                 && scheduler.timers == old(scheduler.timers) && scheduler.armed == old(scheduler.armed))
      && (req.scheduledTime.None? ==>
            && unchanged(scheduler)
            && var d := Renderer.SendDiscordMessage(ImmediateMessage(rec), platform);
            && (d.Delivered? ==>
                  && reply == Reply(200, Some(d.messageId))
                  && store.records
                     == History.Patched(old(store.records) + [rec], id, History.MarkSent(now, Some(d.messageId))))
            && (d.Failed? ==>
                  reply == Reply(500, None) && store.records == old(store.records) + [rec]))
  {
    if MissingRequired(req) {
      return Reply(400, None);
    }
    if req.timezone != "" {
      user.timezone := req.timezone;
    }
    var rec := NewRecord(req, id, now, AuthorOf(user, req.timezone));
    store.Append(rec);
    if req.scheduledTime.Some? {
      var result := scheduler.ScheduleMessage(rec, now);
      reply := if result.Scheduled? then Reply(200, Some(id)) else Reply(400, None);
    } else {
      var d := Renderer.SendDiscordMessage(ImmediateMessage(rec), platform);
      if d.Delivered? {
        var _ := store.Update(id, History.MarkSent(now, Some(d.messageId)));
        reply := Reply(200, Some(d.messageId));
      } else {
        reply := Reply(500, None);
      }
    }
  }

  /** `POST /api/cancel-scheduled/:id`: history is touched only when the
      scheduler still had the id, and then only the matching record. */
  method CancelScheduled(id: Id, now: Timestamp, store: History.HistoryStore, scheduler: Scheduling.Scheduler)
    returns (reply: Reply)
    requires scheduler.Valid()
    modifies store, scheduler
    ensures scheduler.Valid()
    ensures id in old(scheduler.timers) ==>
      && reply == Reply(200, None)
      && store.records == History.Patched(old(store.records), id, History.MarkCanceled(now))
      && scheduler.timers == old(scheduler.timers) - {id}
      && scheduler.armed == old(scheduler.armed) - {old(scheduler.timers)[id]}
    ensures id !in old(scheduler.timers) ==>
      && reply == Reply(404, None)
      && store.records == old(store.records)
      && scheduler.timers == old(scheduler.timers) && scheduler.armed == old(scheduler.armed)
  {
    var canceled := scheduler.CancelScheduledMessage(id);
    if canceled {
      var _ := store.Update(id, History.MarkCanceled(now));
      reply := Reply(200, None);
    } else {
      reply := Reply(404, None);
    }
  }
}
