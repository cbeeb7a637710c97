/** `sendDiscordMessage` (bot/index.js): how one announcement becomes the
    one or two messages posted to a Discord channel, and what the call
    reports back. The rendering is a pure function of its arguments; the
    three calls into the Discord client (fetch the channel, then one or two
    `channel.send`) are represented by their outcomes, a `Platform`. */
module Renderer {
  import opened Announcements
  import opened Text

  // ---------------------------------------------------------------- mentions

  /** The `allowedMentions` option: which pings Discord may deliver. */
  datatype AllowedMentions = AllowedMentions(parse: seq<string>, roles: seq<string>, users: seq<string>)

  datatype Mention = Mention(text: Option<string>, allowed: AllowedMentions)

  const NoPings := AllowedMentions([], [], [])

  /** `roleId` is `null` (None) or a string; the empty string is falsy. */
  function ResolveMention(roleId: Option<string>): (m: Mention)
    ensures roleId == Some("@everyone") ==>
      m.text == Some("@everyone") && m.allowed == AllowedMentions(["everyone"], [], [])
    ensures roleId.Some? && roleId.value != "" && roleId.value != "@everyone" ==>
      m.text == Some("<@&" + roleId.value + ">") && m.allowed == AllowedMentions([], [roleId.value], [])
    ensures roleId.None? || roleId == Some("") ==> m == Mention(None, NoPings)
  {
    if roleId == Some("@everyone") then
      Mention(Some("@everyone"), AllowedMentions(["everyone"], [], []))
    else if roleId.Some? && roleId.value != "" then
      Mention(Some("<@&" + roleId.value + ">"), AllowedMentions([], [roleId.value], []))
    else
      Mention(None, NoPings)
  }

  /** At most one target may be pinged, it is the selected one, and a
      mention text is produced exactly when a ping is allowed. */
  lemma MentionPingsOnlySelectedTarget(roleId: Option<string>)
    ensures var m := ResolveMention(roleId);
      && m.allowed.users == []
      && |m.allowed.parse| + |m.allowed.roles| <= 1
      && (forall r :: r in m.allowed.roles ==> roleId == Some(r))
      && ("everyone" in m.allowed.parse <==> roleId == Some("@everyone"))
      && (m.text.Some? <==> |m.allowed.parse| + |m.allowed.roles| == 1)
  {
  }

  // ----------------------------------------------------------------- content

  /** The `content` of the first message: with an embed only the mention
      (or `null`), otherwise the mention, a space and the body. */
  function MessageContent(mention: Option<string>, body: string, hasEmbed: bool): (c: Option<string>)
    ensures hasEmbed ==> c == mention
    ensures !hasEmbed && mention.Some? ==> c == Some(mention.value + " " + body)
    ensures !hasEmbed && mention.None? ==> c == Some(body)
  {
    if hasEmbed then mention
    else if mention.Some? then Some(mention.value + " " + body)
    else Some(body)
  }

  // ----------------------------------------------------------------- buttons

  /** A `ButtonBuilder` of style `Link`. */
  datatype LinkButton = LinkButton(caption: string, url: string)

  /** The buttons that reach the action row: those with a non-empty label
      and a non-empty URL, in their original order. */
  function LinkButtons(buttons: seq<Button>): (r: seq<LinkButton>)
    ensures |r| <= |buttons|
    ensures forall b :: b in r ==> b.caption != "" && b.url != "" && Button(b.caption, b.url) in buttons
    ensures (forall i :: 0 <= i < |buttons| ==> buttons[i].caption != "" && buttons[i].url != "") ==>
      |r| == |buttons| && forall i :: 0 <= i < |r| ==> r[i] == LinkButton(buttons[i].caption, buttons[i].url)
  {
    if buttons == [] then []
    else
      var b := buttons[|buttons| - 1];
      LinkButtons(buttons[..|buttons| - 1])
        + (if b.caption != "" && b.url != "" then [LinkButton(b.caption, b.url)] else [])
  }

  /** The filter keeps relative order: the buttons of a concatenation are
      the buttons of each part, one after the other. */
  lemma {:induction false} LinkButtonsAppend(a: seq<Button>, b: seq<Button>)
    ensures LinkButtons(a + b) == LinkButtons(a) + LinkButtons(b)
  {
    if b != [] {
      var init, last := b[..|b| - 1], b[|b| - 1];
      var tail := if last.caption != "" && last.url != "" then [LinkButton(last.caption, last.url)] else [];
      assert (a + b)[..|a + b| - 1] == a + init && (a + b)[|a + b| - 1] == last;
      assert LinkButtons(a + b) == LinkButtons(a + init) + tail;
      LinkButtonsAppend(a, init);
      assert LinkButtons(b) == LinkButtons(init) + tail;
    } else {
      assert a + b == a;
    }
  }

  /** The action rows: one row holding the link buttons, or none at all
      when no button survived. */
  function ActionRows(buttons: seq<Button>): (rows: seq<seq<LinkButton>>)
    ensures |rows| <= 1
    ensures rows == [] <==> LinkButtons(buttons) == []
    ensures rows != [] ==> rows[0] == LinkButtons(buttons)
  {
    var row := LinkButtons(buttons);
    if |row| > 0 then [row] else []
  }

  // ------------------------------------------------------------------ colour

  /** The range `EmbedBuilder.setColor` accepts (the discord.js builders
      validate an integer RGB value); anything else throws. */
  predicate SetColorAccepts(n: int) {
    0 <= n <= 0xFF_FFFF
  }

  /** `Number(s)` for the strings modelled here: surrounding whitespace is
      ignored, a blank string is 0, a run of decimal digits is its value,
      and everything else is NaN (None). */
  function JsNumber(s: string): (r: Option<nat>)
    ensures Trim(s) == "" ==> r == Some(0)
  {
    var t := Trim(s);
    if forall i :: 0 <= i < |t| ==> IsDecimalDigit(t[i]) then Some(DecimalValue(t)) else None
  }

  /** `color.replace('#', '').trim()`: a leading `#` goes, and so does
      only the first `#` anywhere else; a string without `#` is only
      trimmed. */
  function HexCandidate(color: string): (r: string)
    ensures StartsWith(color, "#") ==> r == Trim(color[1..])
    ensures '#' !in color ==> r == Trim(color)
    ensures forall k :: 0 <= k < |color| && color[k] == '#' && '#' !in color[..k] ==>
      r == Trim(color[..k] + color[k + 1..])
  {
    assert StartsWith(color, "#") ==> color[0] == '#';
    Trim(RemoveFirst(color, '#'))
  }

  /** The colour the embed ends up with, or None when it stays unset.
      Every exception of the colour block is swallowed, so a bad colour
      never stops the embed from being built. */
  function EmbedColor(c: ColorValue): (r: Option<int>)
    ensures r.Some? ==> SetColorAccepts(r.value)
    ensures c.ColorText? && IsHex6(HexCandidate(c.text)) ==> r == Some(HexValue(HexCandidate(c.text)))
    ensures c.ColorText? && c.text != "" && !IsHex6(HexCandidate(c.text)) ==>
      r == (var n := JsNumber(c.text); if n.Some? && SetColorAccepts(n.value) then n else None)
    ensures c.ColorNumber? ==> r == (if c.n != 0 && SetColorAccepts(c.n) then Some(c.n) else None)
    ensures c.NoColor? || c.OtherColorJson? || c == ColorText("") ==> r == None
  {
    match c
    case ColorText(s) =>
      if s == "" then None
      else
        var hex := HexCandidate(s);
        if IsHex6(hex) then
          Hex6Bound(hex);
          Some(HexValue(hex))
        else
          var n := JsNumber(s);
          if n.Some? && SetColorAccepts(n.value) then Some(n.value) else None
    case ColorNumber(n) =>
      if n != 0 && SetColorAccepts(n) then Some(n) else None
    case _ => None
  }

  /** A colour string holding a character that is not a hex digit, `#`,
      whitespace, or one of `+ - . x X o O` (which JavaScript number
      syntax uses for signs, fractions and `0x`/`0o` prefixes) is neither
      six hex digits nor a number: the embed is built without colour
      instead of the send failing. */
  lemma BadColourIgnored(s: string, i: nat)
    requires i < |s| && !IsHexDigit(s[i]) && s[i] != '#' && !IsJsWhitespace(s[i])
    requires s[i] !in "+-.xXoO"
    ensures EmbedColor(ColorText(s)) == None
  {
    var x := s[i];
    RemoveFirstKeeps(s, '#', x);
    var r := RemoveFirst(s, '#');
    var j :| 0 <= j < |r| && r[j] == x;
    TrimKeeps(r, j);
    assert !AllHex(HexCandidate(s));
    TrimKeeps(s, i);
    var t := Trim(s);
    var k :| 0 <= k < |t| && t[k] == x;
    assert !IsDecimalDigit(t[k]);
  }

  // ------------------------------------------------------------------- embed

  /** A built `EmbedBuilder`. */
  datatype Embed = Embed(
    title: Option<string>,
    description: Option<string>,
    color: Option<int>,
    image: Option<string>,
    thumbnail: Option<string>,
    footer: Option<string>)

  /** A text member is set only when it is truthy. */
  function IfSet(s: string): (r: Option<string>)
    ensures r.Some? <==> s != ""
    ensures r.Some? ==> r.value == s
  {
    if s == "" then None else Some(s)
  }

  /** The `EmbedBuilder` after the calls made on it: each text member is
      set exactly when it is non-empty, the colour as `EmbedColor` decides,
      and the embed is built whatever the colour turned out to be. */
  function BuildEmbed(e: EmbedData): (b: Embed)
    ensures (b.title.Some? <==> e.title != "") && (b.title.Some? ==> b.title.value == e.title)
    ensures (b.description.Some? <==> e.description != "") && (b.description.Some? ==> b.description.value == e.description)
    ensures (b.image.Some? <==> e.image != "") && (b.image.Some? ==> b.image.value == e.image)
    ensures (b.thumbnail.Some? <==> e.thumbnail != "") && (b.thumbnail.Some? ==> b.thumbnail.value == e.thumbnail)
    ensures (b.footer.Some? <==> e.footer != "") && (b.footer.Some? ==> b.footer.value == e.footer)
    ensures b.color == EmbedColor(e.color) && (b.color.Some? ==> SetColorAccepts(b.color.value))
  {
    Embed(IfSet(e.title), IfSet(e.description), EmbedColor(e.color),
          IfSet(e.image), IfSet(e.thumbnail), IfSet(e.footer))
  }

  // ------------------------------------------------------------------- sends

  /** `new AttachmentBuilder(file.path, { name: file.originalname })`. */
  datatype Attachment = Attachment(path: string, name: string)

  function Attachments(files: seq<FileInfo>): (r: seq<Attachment>)
    ensures |r| == |files|
    ensures forall i :: 0 <= i < |r| ==> r[i] == Attachment(files[i].path, files[i].originalName)
  {
    if files == [] then []
    else [Attachment(files[0].path, files[0].originalName)] + Attachments(files[1..])
  }

  /** The options of one `channel.send` call. */
  datatype Payload =
    | Message(content: Option<string>, files: seq<Attachment>, components: seq<seq<LinkButton>>,
              embeds: seq<Embed>, allowedMentions: AllowedMentions)
    | FilesOnly(files: seq<Attachment>)

  /** The arguments of `sendDiscordMessage`. */
  datatype Outgoing = Outgoing(
    channelId: string,
    content: string,
    files: seq<FileInfo>,
    roleId: Option<string>,
    buttons: seq<Button>,
    embed: Option<EmbedData>,
    attachmentPosition: string)

  function Embeds(embed: Option<EmbedData>): (r: seq<Embed>)
    ensures |r| == (if embed.Some? then 1 else 0)
  {
    if embed.Some? then [BuildEmbed(embed.value)] else []
  }

  /** The payloads sent, in order: with attachments placed at the `'end'`
      a text message followed by a files-only message, otherwise a single
      message carrying everything. */
  function Render(o: Outgoing): (plan: seq<Payload>)
    ensures 1 <= |plan| <= 2 && plan[0].Message?
    ensures |plan| == 2 <==> |o.files| > 0 && o.attachmentPosition == "end"
    ensures |plan| == 2 ==> plan[0].files == [] && plan[1] == FilesOnly(Attachments(o.files))
    ensures |plan| == 1 ==> plan[0].files == Attachments(o.files)
    ensures var m := ResolveMention(o.roleId);
      && plan[0].content == MessageContent(m.text, o.content, o.embed.Some?)
      && plan[0].allowedMentions == m.allowed
      && plan[0].components == ActionRows(o.buttons)
      && plan[0].embeds == Embeds(o.embed)
  {
    var m := ResolveMention(o.roleId);
    var content := MessageContent(m.text, o.content, o.embed.Some?);
    var attachments := Attachments(o.files);
    var rows := ActionRows(o.buttons);
    var embeds := Embeds(o.embed);
    if |attachments| > 0 && o.attachmentPosition == "end" then
      [Message(content, [], rows, embeds, m.allowed), FilesOnly(attachments)]
    else
      [Message(content, attachments, rows, embeds, m.allowed)]
  }

  function AllFiles(plan: seq<Payload>): seq<Attachment> {
    if plan == [] then [] else plan[0].files + AllFiles(plan[1..])
  }

  /** Whatever the placement, every attachment is sent exactly once, in
      upload order, and the text, buttons, embed and mentions travel
      together in the first message only. */
  lemma {:induction false} EveryAttachmentSentOnce(o: Outgoing)
    ensures AllFiles(Render(o)) == Attachments(o.files)
    ensures forall i :: 1 <= i < |Render(o)| ==> Render(o)[i].FilesOnly?
  {
    var plan := Render(o);
    if |plan| == 2 {
      assert AllFiles(plan[2..]) == [];
      assert AllFiles(plan[1..]) == plan[1].files + AllFiles(plan[2..]);
    } else {
      assert AllFiles(plan[1..]) == [];
    }
    assert AllFiles(plan) == plan[0].files + AllFiles(plan[1..]);
  }

  /** With an embed, the body is never repeated as message text: the only
      text sent is the mention, if any. */
  lemma EmbedSuppressesBody(o: Outgoing)
    requires o.embed.Some?
    ensures forall p :: p in Render(o) && p.Message? ==> p.content == ResolveMention(o.roleId).text
    ensures Render(o)[0].embeds == [BuildEmbed(o.embed.value)]
  {
  }

  // ---------------------------------------------------------------- delivery

  /** What `client.channels.fetch` produced. */
  datatype ChannelLookup = TextChannel | NonTextChannel | NoChannel | FetchFailed(reason: string)

  /** What one `channel.send` produced. */
  datatype SendOutcome = Sent(messageId: string) | SendFailed(reason: string)

  /** The Discord client's answers to the calls of one delivery: the
      channel lookup and the outcomes of the first and (if made) second
      `channel.send`. */
  datatype Platform = Platform(channel: ChannelLookup, first: SendOutcome, second: SendOutcome)

  /** `BuilderRejected` is the exception a discord.js builder throws while
      the message is put together, before anything is sent. */
  datatype DeliveryError = ChannelNotFound | ChannelNotText | BuilderRejected | ClientError(reason: string)

  /** `{ success: true, messageId }` or `{ success: false, error }`. */
  datatype Delivery = Delivered(messageId: string) | Failed(error: DeliveryError)

  /** The payloads the platform accepted: sends stop at the first failure,
      and nothing is sent through a channel that was not resolved. */
  function Committed(p: Platform, plan: seq<Payload>): (c: seq<Payload>)
    requires 1 <= |plan| <= 2
    ensures c <= plan
  {
    if !p.channel.TextChannel? || p.first.SendFailed? then []
    else if |plan| == 1 || p.second.SendFailed? then [plan[0]]
    else plan
  }

  function Deliver(p: Platform, plan: seq<Payload>): (d: Delivery)
    requires 1 <= |plan| <= 2
    ensures d.Delivered? <==> Committed(p, plan) == plan
    ensures d.Delivered? ==> p.first.Sent? && d.messageId == p.first.messageId
    ensures p.channel == NoChannel ==> d == Failed(ChannelNotFound)
    ensures p.channel == NonTextChannel ==> d == Failed(ChannelNotText)
  {
    match p.channel
    case NoChannel => Failed(ChannelNotFound)
    case NonTextChannel => Failed(ChannelNotText)
    case FetchFailed(e) => Failed(ClientError(e))
    case TextChannel =>
      match p.first
      case SendFailed(e) => Failed(ClientError(e))
      case Sent(id) =>
        if |plan| == 2 && p.second.SendFailed? then Failed(ClientError(p.second.reason))
        else Delivered(id)
  }

  // ---------------------------------------------------------------- builders

  /** The length limits, in UTF-16 units, that the discord.js builders
      check when `setTitle`, `setDescription`, `setFooter` and
      `ButtonBuilder.setLabel` are called. */
  const TitleLimit := 256
  const DescriptionLimit := 4096
  const FooterLimit := 2048
  const LabelLimit := 80

  /** A member the code only sets when it is non-empty fits its limit. */
  predicate FitsWhenSet(s: string, limit: nat) {
    s == "" || Utf16Length(s) <= limit
  }

  /** Every setter the message calls accepts the length of its argument:
      the label of each button that has a label and a URL, and the title,
      description and footer of the embed. */
  predicate BuildersAccept(o: Outgoing) {
    && (forall b :: b in o.buttons && b.caption != "" && b.url != "" ==> Utf16Length(b.caption) <= LabelLimit)
    && (o.embed.Some? ==>
          && FitsWhenSet(o.embed.value.title, TitleLimit)
          && FitsWhenSet(o.embed.value.description, DescriptionLimit)
          && FitsWhenSet(o.embed.value.footer, FooterLimit))
  }

  /** `sendDiscordMessage`: it never throws; every failure becomes a
      `Failed` result. Once the channel is resolved the builders run, and
      one of them throwing ends the call before any send. The message id
      reported is always the first send's. */
  function SendDiscordMessage(o: Outgoing, p: Platform): (d: Delivery)
    ensures d.Delivered? <==>
      p.channel == TextChannel && BuildersAccept(o) && p.first.Sent? && (|Render(o)| == 1 || p.second.Sent?)
    ensures d.Delivered? ==> d.messageId == p.first.messageId
    ensures p.channel == TextChannel && !BuildersAccept(o) ==> d == Failed(BuilderRejected)
    ensures p.channel == NoChannel ==> d == Failed(ChannelNotFound)
    ensures p.channel == NonTextChannel ==> d == Failed(ChannelNotText)
  {
    if p.channel == TextChannel && !BuildersAccept(o) then Failed(BuilderRejected)
    else Deliver(p, Render(o))
  }

  /** A title longer than 256 UTF-16 units fails the announcement whatever
      Discord would have answered, and no message is posted. */
  lemma LongTitleFails(o: Outgoing, p: Platform)
    requires o.embed.Some? && Utf16Length(o.embed.value.title) > TitleLimit
    requires p.channel == TextChannel
    ensures SendDiscordMessage(o, p) == Failed(BuilderRejected)
  {
  }

  /** A split delivery whose follow-up fails is reported as failed, yet the
      text message has already been posted and is not withdrawn. */
  lemma PartialFailureIsNotRolledBack(o: Outgoing, p: Platform)
    requires |o.files| > 0 && o.attachmentPosition == "end"
    requires p.channel == TextChannel && p.first.Sent? && p.second.SendFailed?
    ensures SendDiscordMessage(o, p).Failed?
    ensures Committed(p, Render(o)) == [Render(o)[0]]
  {
  }
}
