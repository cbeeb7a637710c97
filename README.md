# discord-news: the announcement pipeline, modelled in Dafny

discord-news is a small web dashboard and Discord bot. An operator fills in
a form in the browser (web/public/js/script.js) and posts it to
`POST /api/send-news` (web/server.js). The server turns the form into a
history record and appends it to the history document. Then it either
sends the announcement at once through the bot's `sendDiscordMessage`, or
hands it to the bot's in-memory scheduler (bot/index.js). A scheduled
announcement can be canceled through `POST /api/cancel-scheduled/:id`.
When the bot starts, it re-arms the pending announcements found in
history.

The Dafny modules follow that structure:

| file | module | what it holds |
|---|---|---|
| text.dfy | `Text` | the JavaScript string built-ins the pipeline uses: `trim`, single `replace`, the hex and `https?://` regular expressions, `parseInt(_, 16)`, `Number` on digit strings, UTF-16 `length` |
| announcements.dfy | `Announcements` | the values that travel through the pipeline: history records, buttons, embed data, uploaded files, instants |
| renderer.dfy | `Renderer` | `sendDiscordMessage` as a pure function from its arguments to the one or two `channel.send` payloads, and the delivery result given the Discord client's answers |
| history.dfy | `History` | the history document as a class holding a sequence of records: append, `findIndex`, in-place marking of one record, the dashboard slice |
| scheduler.dfy | `Scheduling` | `scheduledMessages` and the runtime's timer queue as a class: `scheduleMessage`, `cancelScheduledMessage`, a timer firing, and the recovery loop |
| server.dfy | `Server` | the two handlers: validation, role mapping, button filter, record construction, then schedule or send and mark |
| client.dfy | `Client` | `escapeHtml`, `sanitize`, the hex colour field, `getButtonsData`, the embed object sent on submit, and the preview as a sequence of blocks held by a `Form` class |
| scenarios.dfy | `Scenarios` | end-to-end traces on fresh state: send now, schedule then fire, schedule then cancel, cancel twice, cancel after firing, a past time, a time too far ahead |

Some source functions are plain definitions, and the lemmas about them
carry their properties:

- `escapeHtml` (web/public/js/script.js:368-373) is `Client.EscapeHtml`,
  and each `replace(/x/g, …)` in it is `Client.ReplaceAll`.
- `updatePreview` (web/public/js/script.js:146-199) is `Client.Preview`,
  drawn by `Client.Draw`.
- The required-field test (web/server.js:228) is `Server.MissingRequired`.

The "## Model" table lists the lemmas about these functions.

## Modelling choices

- Time is an integer count of milliseconds. The source reads the clock
  with `new Date()` at several points of one request. The model gives
  each handler call a single reading (`now`) and uses it for all of them.
  The lines that read the clock, and what this merges, are listed under
  "Left out".
- A date string after `new Date(...)` is an `Instant`: either a point in
  time or the Invalid Date. An Invalid Date passes both checks of
  `scheduleMessage`, because comparisons with NaN are false. Node runs a
  timer whose delay is NaN after 1 ms, and the model gives it a delay
  of 1.
- The Discord client is reduced to its answers. A `Platform` value says
  what the channel lookup found and what each `channel.send` returned.
- `setTimeout` is the `armed` map from handle to timer, with handles that
  are never reused. A timer firing is the `Scheduler.Fire` method, called
  by whoever drives the clock.
- A form field that carries JSON arrives already parsed, or as the fact
  that `JSON.parse` threw on it (`Server.JsonField`).
- The empty string stands for a missing or falsy optional text field,
  as the source's truthiness tests treat it.
- The preview is a sequence of blocks rather than an HTML string. The
  message text in a body block is kept raw, since markdown rendering is
  left out.

## Where the code and its description differ

In each case the model follows the code.

- A fired timer never removes its entry from `scheduledMessages`
  (bot/index.js:175-198). So canceling an announcement that has already
  gone out still succeeds: the server answers 200 and marks a sent
  record canceled (`Scenarios.CancelAfterFire`). It is not a 404.
- The timer callback ignores the result of `sendDiscordMessage`, and that
  function never throws. A scheduled send that failed is therefore still
  marked sent, with no message id (`Scenarios.FailedFireStillMarkedSent`).
- An immediate announcement is written with `sent: true` before the send
  is attempted (web/server.js:288). A failed send leaves it that way.
- The record is appended before `scheduleMessage` checks the time. A time
  in the past is answered with 400, but the record stays in history,
  scheduled and never to be sent (`Scenarios.PastTimeRejected`).
- A time more than 2147483647 ms ahead is also answered with 400, and its
  record also stays, scheduled, unsent and uncanceled. Recovery at the next
  start (bot/index.js:31-38) does not ask why the record was never armed.
  If that start falls within 2147483647 ms of the time, recovery re-arms
  the record, and the announcement refused with 400 goes out after all
  (`Scenarios.TooFarThenRearmed`).
- The immediate path does not pass `attachmentPosition`
  (web/server.js:310), so an immediate announcement always carries its
  files in its single message (`Server.ImmediateMessage`).
- The form's button inputs carry `maxlength="80"` and `type="url"`
  (web/public/js/script.js:270-271, 332-333). The browser enforces those
  attributes, and they are not part of this model. The form script itself
  only drops rows with an empty input and keeps five. The server checks
  again: at most 80 UTF-16 units, and a URL that starts with `http://` or
  `https://`. A `type="url"` field also accepts schemes such as `ftp:`,
  and the server drops those. `sendDiscordMessage` only drops buttons
  without a label or a URL.
- An embed field that does not parse as JSON still satisfies the
  required-field check (web/server.js:228). The send that follows carries
  no embed, and when no role was chosen its content is the empty string
  (`Server.UnparsableEmbedPassesCheck`). Discord's answer to
  such a send is not part of this model. An empty message with no files
  and no buttons would be refused, and the model covers that through the
  `Platform` answer.

## Model

| member | source | states |
|---|---|---|
| Text.Trim | web/public/js/script.js:45 | `trim` leaves neither leading nor trailing whitespace, never lengthens, and changes nothing on a string without whitespace |
| Text.TrimIsMiddle | web/public/js/script.js:45 | `trim` removes characters only at the two ends, and only whitespace: the result is the slice of the input that starts where the leading whitespace ends, with only whitespace before and after it |
| Text.TrimKeeps | bot/index.js:104 | trimming removes whitespace only: every other character of the input is in the result |
| Text.RemoveFirst | bot/index.js:104 | `replace('#', '')` with a `#` present removes exactly the first `#`: the result is the text before it followed by the text after it. Without a `#` it returns its input |
| Text.RemoveFirstKeeps | bot/index.js:104 | removing the first `#` keeps every other character |
| Text.HexValue | bot/index.js:106 | `parseInt(_, 16)` of n hex digits is below 16 to the power n |
| Text.Hex6Bound | bot/index.js:105-106 | six hex digits parsed in base 16 always give a 24-bit RGB value |
| Text.Utf16Length | web/server.js:255 | `label.length` counts UTF-16 units: between the number of characters and twice that |
| Renderer.ResolveMention | bot/index.js:53-62 | `@everyone` gives the text `@everyone` and allows only the everyone ping; another non-empty role id gives `<@&id>` and allows only that role; no role gives no text and no pings |
| Renderer.MentionPingsOnlySelectedTarget | bot/index.js:53-62 | users are never pinged, at most one target is allowed and it is the one selected, and mention text exists exactly when a ping is allowed |
| Renderer.MessageContent | bot/index.js:65-70 | with an embed the content is exactly the mention or null; without one it is the mention, a space and the body, or the body alone |
| Renderer.LinkButtons | bot/index.js:79-90 | only buttons with a label and a URL become link buttons, each taken from the input; when all qualify they all appear, in input order |
| Renderer.LinkButtonsAppend | bot/index.js:81-90 | the button filter keeps input order: the buttons of a concatenation are those of each part in turn |
| Renderer.ActionRows | bot/index.js:78-92 | at most one action row, present exactly when at least one link button survived, and holding those buttons |
| Renderer.JsNumber | bot/index.js:108 | `Number` of a blank string is 0 |
| Renderer.HexCandidate | bot/index.js:104 | the first `#`, wherever it stands, is removed and the rest trimmed; a colour without `#` is only trimmed |
| Renderer.EmbedColor | bot/index.js:101-115 | a string whose first `#` removed and trimmed is six hex digits gives their value; another non-empty string gives its numeric value when valid; a number passes through when it is a valid colour; anything else, or a value `setColor` would throw on, leaves the colour unset; a set colour is always within 0..0xFFFFFF |
| Renderer.BadColourIgnored | bot/index.js:101-115 | a colour string holding a character that is not a hex digit, `#`, whitespace, or one of the number-syntax characters `+ - . x X o O` leaves the embed without colour instead of failing the send |
| Renderer.IfSet | bot/index.js:98-99 | a text member of the embed is set exactly when it is non-empty, and then to that text |
| Renderer.Attachments | bot/index.js:73-75 | one attachment per uploaded file, in order, with the file's path and original name |
| Renderer.BuildEmbed | bot/index.js:96-120 | title, description, image, thumbnail and footer are each set exactly when given non-empty, and then to that value; the colour is what the colour block decides, and any set colour is one `setColor` accepts |
| Renderer.Embeds | bot/index.js:95-121 | exactly one embed when embed data is given, none otherwise |
| Renderer.Render | bot/index.js:125-151 | files at the `'end'` give two sends, the first without files and the second with only the files; otherwise one send carries the files; the first send carries the resolved mention, content, action rows and embed |
| Renderer.EveryAttachmentSentOnce | bot/index.js:125-151 | whatever the placement, every attachment is sent exactly once and in upload order, and any send after the first carries only files |
| Renderer.EmbedSuppressesBody | bot/index.js:64-70 | with an embed, every text message carries only the mention, never the body, and the first send carries that embed |
| Renderer.Committed | bot/index.js:125-151 | the payloads Discord accepted are a prefix of the planned sends |
| Renderer.Deliver | bot/index.js:47-157 | success exactly when every planned send was accepted, reporting the first send's message id; a missing channel and a non-text channel are reported as such |
| Renderer.SendDiscordMessage | bot/index.js:46-158 | succeeds exactly when the channel is a text channel, every builder accepts its input, and every send succeeded. A missing or non-text channel is reported as such. Once the channel is resolved, a builder that refuses its input fails the call before any send. The message id is always that of the first send |
| Renderer.LongTitleFails | bot/index.js:96-97 | an embed title longer than 256 UTF-16 units fails the announcement, whatever Discord would have answered |
| Renderer.PartialFailureIsNotRolledBack | bot/index.js:134-139 | a split send whose second part fails is reported failed although the text message was already posted |
| History.IndexOf | web/server.js:338 | `findIndex` returns the first position holding the id, or -1 exactly when no record has it |
| History.Apply | web/server.js:314-316 | marking sent sets `sent`, the time and, when one was reported, the message id; marking canceled sets `canceled` and its time; every other field of the record stays as it was |
| History.Patched | web/server.js:312-318 | marking changes only the record `findIndex` found, applying the patch to it, and nothing at all when no record has the id |
| History.PatchKeepsIds | web/server.js:338-343 | marking keeps every record's id and leaves every record with another id untouched |
| History.HistoryStore.constructor | web/server.js:294 | the document starts empty |
| History.HistoryStore.Append | web/server.js:299 | `push` adds the record at the end and leaves the earlier ones as they were |
| History.HistoryStore.FindIndex | web/server.js:312 | the linear search returns exactly `findIndex`'s answer |
| History.HistoryStore.Update | web/server.js:338-343 | reports whether a record with the id exists, and the document becomes the patched document |
| History.Reverse | web/server.js:214 | `reverse` keeps the length and puts the last element first |
| History.Dashboard | web/server.js:214 | the dashboard shows the last twenty records (or all if fewer), newest first |
| Scheduling.TimerDelay | bot/index.js:163-173 | a time not after now is rejected as past; more than 2147483647 ms ahead is rejected as too far; otherwise the delay is the time left, between 1 and 2147483647; an Invalid Date passes with delay 1 |
| Scheduling.JobMessage | bot/index.js:162-177 | the timer sends the record's own channel, content, files, role, buttons, embed and attachment placement |
| Scheduling.AwaitsDelivery | bot/index.js:32-34 | an item that passes the recovery filter and lies ahead of now is never rejected as past, and an Invalid Date never passes the filter |
| Scheduling.Rearmed | bot/index.js:31-38 | recovery re-arms no more items than history holds, and each one passes the filter and lies no more than 2147483647 ms ahead |
| Scheduling.Scheduler.constructor | bot/index.js:17 | the scheduler starts with no mapped ids and no armed timers |
| Scheduling.Scheduler.ScheduleMessage | bot/index.js:161-200 | a rejected time changes nothing and returns the error; an accepted time arms one fresh timer with the delay and the record, maps the id to it, returns success with the id, and leaves the id pending |
| Scheduling.Scheduler.CancelScheduledMessage | bot/index.js:202-210 | true exactly when the id is mapped; the id is then unmapped and its timer cleared; otherwise nothing changes; afterwards the id is not pending |
| Scheduling.Scheduler.Fire | bot/index.js:175-196 | the armed timer goes, the id stays mapped, the captured record is sent, and the record is marked sent whatever the send reported |
| Scheduling.Scheduler.RecoverItem | bot/index.js:32-37 | an item that is scheduled, unsent, uncanceled and due in the future goes through `scheduleMessage`; any other item changes nothing |
| Scheduling.Scheduler.Recover | bot/index.js:31-39 | the loop arms exactly one timer per re-armed item, in history order, and every re-armed id ends up pending |
| Scheduling.RearmedExactly | bot/index.js:31-38 | recovery re-arms exactly the history items that are pending, due in the future and within the timer horizon; past-due pending items are skipped |
| Scheduling.TimersAfterShape | bot/index.js:198 | re-arming adds exactly the re-armed ids to the map, each to a new handle, and leaves every other id's timer alone |
| Scheduling.ArmedAfterShape | bot/index.js:175-196 | re-arming queues one timer per item under consecutive new handles and leaves the timers already queued untouched |
| Scheduling.RearmedAreArmed | bot/index.js:31-38 | every re-armed id maps to a timer that is still queued |
| Server.MapRole | web/server.js:239-241 | `'everyone'` becomes `@everyone`, any other non-empty role is kept, and no role becomes null |
| Server.RoleSelectionPings | web/server.js:239-241 | the role picked in the form pings the broadcast, that one role, or nobody |
| Server.AllowedButtons | web/server.js:254-256 | the filter keeps no more than it is given; every kept button is one of the given objects and passes the check; when all pass, all are kept in order |
| Server.AllowedButtonsExactly | web/server.js:254-256 | a button is kept exactly when it is an object with a label and a URL, the label has at most 80 UTF-16 units, and the URL starts with `http://` or `https://` in any case |
| Server.AllowedButtonsAppend | web/server.js:254-256 | the filter keeps the relative order of the buttons it keeps |
| Server.FilterButtons | web/server.js:250-258 | the stored buttons are the first five survivors of the filter; a missing or unparsable field gives none |
| Server.StoredButtonsAllRender | web/server.js:250-258 | every stored button has a label of at most 80 units and an http(s) URL, and all of them reach Discord as link buttons, in order |
| Server.UnparsableEmbedPassesCheck | web/server.js:228-265 | an embed field that does not parse counts as present for the required-field check, and the send then carries no embed and, without a role, empty content |
| Server.ParsedEmbed | web/server.js:260-265 | embed data exists exactly when the embed field parsed, and it is the parsed value |
| Server.NewRecord | web/server.js:276-291 | the record carries the request's channel, text and files, the mapped role and filtered buttons; it is scheduled exactly when a time was given and sent exactly when none was; it is not canceled; placement defaults to `'start'` and the time to the creation time |
| Server.NewRecordState | web/server.js:285-289 | a new record is either scheduled or already flagged sent, never both, never canceled, and holds at most five buttons |
| Server.ImmediateMessage | web/server.js:310 | the immediate send passes the same channel, content, files, role, buttons and embed that the record holds, with placement `'start'`, so it is a single message carrying all files |
| Server.User.constructor | web/server.js:268-273 | the logged-in user's identity fields are those given |
| Server.AuthorOf | web/server.js:268-274 | the stored author carries the session user's id, name, avatar and discriminator, and the timezone sent with the form, `UTC` when none was sent, so never an empty one |
| Server.SendNews | web/server.js:224-328 | a missing channel, or missing text and embed, is a 400 that touches nothing; otherwise the user's timezone is updated when given and the record appended; a scheduled request answers 200 with the id and arms its timer, or 400 leaving the record; an immediate one answers 200 with the message id and marks the record sent with it, or 500 leaving the record as written |
| Server.CancelScheduled | web/server.js:330-347 | when the scheduler had the id, the answer is 200, the timer is gone and only the matching record is marked canceled; otherwise the answer is 404 and neither history nor the scheduler changes |
| Client.ReplaceAllAbsent | web/public/js/script.js:370-372 | a global replacement of a character that does not occur changes nothing |
| Client.ReplaceAllLength | web/public/js/script.js:370-372 | each occurrence of the character changes the length by the replacement's length minus one |
| Client.ReplaceAllGrows | web/public/js/script.js:370-372 | replacing with a non-empty string never shortens the text |
| Client.ReplaceAllChars | web/public/js/script.js:370-372 | every character of the result was in the input and is not the replaced one, or comes from the replacement; every other character of the input survives |
| Client.ReplaceAllAppend | web/public/js/script.js:370-372 | a global replacement works piecewise over a concatenation |
| Client.EscapeChar | web/public/js/script.js:368-373 | a character becomes an entity exactly when it is `&`, `<`, `>`, `"` or `'`, and is kept otherwise; no entity holds a markup character, nor an `&` after its first |
| Client.EscapeHtmlPlain | web/public/js/script.js:368-373 | text without `&`, `<`, `>`, `"` or `'` comes out of `escapeHtml` unchanged |
| Client.EscapeHtmlLength | web/public/js/script.js:368-373 | escaping never shortens the text |
| Client.EscapeHtmlAppend | web/public/js/script.js:368-373 | escaping works piecewise over a concatenation |
| Client.EscapeHtmlChar | web/public/js/script.js:368-373 | one character passed through the five replacements comes out as its own escape, with no entity rewritten by a later step |
| Client.EscapeHtmlIsPerChar | web/public/js/script.js:368-373 | because `&` is replaced first, the chain of replacements equals escaping each character on its own |
| Client.EscapedHasNoSpecials | web/public/js/script.js:368-373 | no raw `<`, `>`, `"` or `'` survives escaping |
| Client.EscapedAmpersandsBeginEntities | web/public/js/script.js:368-373 | every `&` in the output begins one of `&amp;`, `&lt;`, `&gt;`, `&quot;`, `&#039;` |
| Client.UnescapeChunk | web/public/js/script.js:368-373 | reading back an escaped character followed by anything gives that character first |
| Client.EscapeHtmlRoundTrip | web/public/js/script.js:368-373 | escaping loses nothing and never escapes twice: reading the output back as HTML gives the input |
| Client.Sanitize | web/public/js/script.js:363-366 | `sanitize` never lengthens, leaves no `"`, `'`, `<` or `>`, and changes nothing on a string without them |
| Client.SanitizeAppend | web/public/js/script.js:363-366 | `sanitize` keeps the order of the characters it keeps |
| Client.SanitizeKeeps | web/public/js/script.js:363-366 | a character survives exactly when it is in the input and is not one of the four markup characters |
| Client.SanitizeIdempotent | web/public/js/script.js:363-366 | sanitizing twice is sanitizing once |
| Client.NormalizeHex | web/public/js/script.js:44-51 | the hex field is accepted exactly when, trimmed and without a leading `#`, it is six hex digits; the accepted value is `#` and those digits |
| Client.CheckHex | web/public/js/script.js:45-47 | trimming, prefixing a missing `#` and matching `^#[0-9A-Fa-f]{6}$` decides exactly as the normalised value says |
| Client.Hex6HasNoWhitespace | web/public/js/script.js:47 | six hex digits contain no whitespace and no `#` |
| Client.EmbedObject | web/public/js/script.js:86-90 | the submitted embed has the trimmed title and text, the trimmed hex field (default `#2f3136`) as its colour, and nothing else |
| Client.AcceptedHexReachesBot | web/public/js/script.js:86-90 | a colour the hex field accepts is the colour the bot gives the embed: the value of its six digits |
| Client.HashHexAccepted | web/public/js/script.js:44-51 | `#` followed by six hex digits is accepted unchanged |
| Client.DefaultHexReachesBot | web/public/js/script.js:89 | an empty hex field gives the embed colour 0x2F3136 |
| Client.FilledRowsExactly | web/public/js/script.js:290-302 | a button is collected exactly when some row holds it with both inputs filled |
| Client.FilledRowsAppend | web/public/js/script.js:290-302 | collected buttons keep the order of their rows |
| Client.FirstFive | web/public/js/script.js:303 | `slice(0, 5)` is the prefix of length five, or everything when shorter |
| Client.SubmittedButtonsKept | web/public/js/script.js:81 | up to five collected buttons with short labels and http(s) URLs are stored by the server exactly as submitted |
| Client.CollectButtons | web/public/js/script.js:290-304 | the loop returns the first five filled rows, in DOM order |
| Client.Tiles | web/public/js/script.js:202-218 | one tile per file, and the tile at each position is drawn from the file at that position |
| Client.RenderFiles | web/public/js/script.js:202-218 | the loop builds one tile per file, in order: an image for an `image/` type, an icon otherwise, named with the escaped file name |
| Client.Links | web/public/js/script.js:189-195 | the buttons block holds no more links than there are buttons |
| Client.LinksExactly | web/public/js/script.js:189-195 | every link comes from a button with a label and a URL, and when every button has both, each button gives the link at its own position |
| Client.LinksSnoc | web/public/js/script.js:189-195 | one more button adds its link at the end when it has a label and a URL, and adds nothing otherwise |
| Client.LinksAppend | web/public/js/script.js:189-195 | the links of a concatenation are the links of each part in turn |
| Client.LinkTiles | web/public/js/script.js:189-195 | the loop draws one link per button with a label and URL, with sanitized href and escaped text, in order |
| Client.DrawBody | web/public/js/script.js:166-179 | the body is an embed exactly when the embed is on, and holds the message text either way. The embed's border colour holds no `<`, `>`, `"` or `'`. Its title shows exactly when the trimmed title is not blank, and reading the shown title back as HTML gives the trimmed title |
| Client.Draw | web/public/js/script.js:146-199 | the preview is role, files at the start, body, files at the end, buttons, in that order |
| Client.PreviewLayout | web/public/js/script.js:146-199 | the preview holds the body plus one block each for a role, placed files and buttons; the body sits after the role and leading files; it starts with the role line exactly when a role is chosen and ends with the buttons exactly when there are any |
| Client.PreviewHasOneBody | web/public/js/script.js:166-179 | the preview holds exactly one body block; it is the embed exactly when the embed is on, and the text appears in it and nowhere else |
| Client.AttachmentPlacement | web/public/js/script.js:161-184 | the files block appears exactly when files are chosen and the placement is `'start'` or `'end'`; it precedes the body exactly for `'start'` and follows it exactly for `'end'` |
| Client.ResetPreview | web/public/js/script.js:317-353 | after a reset the preview shows only the text placeholder |
| Client.Form.constructor | web/public/js/script.js:21-24 | the form starts with no files and every input at the default `resetForm` restores, and the first `updatePreview` draws a preview that holds only the placeholder |
| Client.Form.UpdatePreview | web/public/js/script.js:146-199 | the preview becomes the drawing of the current inputs and nothing else changes |
| Client.Form.HandleFileSelect | web/public/js/script.js:220-246 | the chosen files replace the current ones and the preview is redrawn |
| Client.Form.ResetFields | web/public/js/script.js:317-339 | every input returns to its default: no text, role or files, embed off, colours `#5865f2`, placement `'start'`, one empty button row, not scheduled |
| Client.Form.ResetForm | web/public/js/script.js:317-353 | after a reset every input holds its default and the preview shows only the placeholder |
| Client.Form.OnHexInput | web/public/js/script.js:44-51 | an accepted hex value moves the colour picker to the normalised value and redraws; anything else changes nothing |
| Client.Form.OnColorInput | web/public/js/script.js:40-43 | the hex field follows the colour picker and the preview is redrawn |
| Scenarios.ImmediateText | web/server.js:276-319 | a text sent now is posted as one message with exactly that text and no pings, and its record is sent, with the time and the Discord message id |
| Scenarios.EmbedFromForm | web/public/js/script.js:84-91 | an embed whose colour field holds six hex digits reaches Discord as one message without text of its own, whose embed has the trimmed title and text when they are not blank and the value of those digits as its colour |
| Scenarios.UnknownColourIgnored | bot/index.js:101-115 | a colour such as `notacolor` leaves the embed without colour and the announcement is still delivered |
| Scenarios.ScheduledThenFired | bot/index.js:161-198 | a time ten seconds ahead is accepted with the id; when the timer fires the message goes out and the record is marked sent at that time, with no timer left queued |
| Scenarios.FailedFireStillMarkedSent | bot/index.js:175-192 | a fired announcement whose channel is missing is still recorded as sent |
| Scenarios.ScheduledThenCanceled | web/server.js:330-344 | canceling before the time answers 200, marks the record canceled and unsent, and leaves no timer queued |
| Scenarios.CancelTwice | bot/index.js:202-210 | the second cancel of the same id answers 404 and leaves history as the first left it |
| Scenarios.CancelAfterFire | bot/index.js:175-206 | canceling after the timer fired still answers 200, and the record ends up both sent and canceled |
| Scenarios.PastTimeRejected | web/server.js:299-307 | a past time is answered with 400, yet the record stays in history, scheduled and neither sent nor canceled, with no timer queued |
| Scenarios.TooFarThenRearmed | bot/index.js:31-38 | a time too far ahead is answered with 400, and its record stays pending. Recovery two milliseconds later re-arms exactly that record |

## Left out

- The Discord client (`client.channels.fetch`, `channel.send`, `isTextBased`, `getGuildData`, `client.login`): network calls into a foreign library. Their answers are the `Platform` parameter.
- Real timers and the asynchrony of the timer callback: a timer firing is an explicit call with the clock reading. Two requests interleaving at an `await` are not modelled.
- `JSON.parse`, `JSON.stringify` and the file I/O on the history document: history is one in-memory sequence, and a field is parsed or not before the handler runs.
- Scheduling.Scheduler.Fire: a history document that cannot be read or written is not modelled; the callback then only logs the error.
- Server.SendNews: a history document that fails to read is not modelled. The handler would start from an empty array and overwrite the file with the new record alone. The catch-all 500 for a failed write is not modelled either.
- Server.SendNews: only a form field that parses as a JSON array of objects with string members is modelled. Non-array JSON would make `filter` throw and leave the parsed value stored as is. Non-string labels or URLs, and an embed field holding `null`, are not modelled.
- Server.SendNews: the source reads the clock separately at web/server.js:286 (the default time), 287 (`createdAt`) and 315 (`sentAt`). `scheduleMessage` reads it again at bot/index.js:164. The model gives all of them the one `now`. So `sentAt` equals `createdAt`, and the milliseconds that pass between those reads are not modelled.
- Server.SendNews: a `scheduledTime` string is taken as already converted to an instant. The local-time reading of a `datetime-local` value is not modelled.
- Scheduling.Scheduler.Recover: the filter compares with one clock reading (bot/index.js:30). `scheduleMessage` reads the clock again for each item (bot/index.js:164). The model uses one `now` for both, so an item that falls due between the two reads is not modelled. A document that cannot be read is not modelled either; the handler then only logs.
- Renderer.EmbedColor: `Number(...)` of a non-hex colour string is modelled only for blank strings and runs of decimal digits, with surrounding whitespace. Other JavaScript numeric syntax (signs, fractions, exponents, `0x`, `Infinity`) counts as not a number here. Floating-point values are not modelled.
- Renderer.BadColourIgnored: does not cover colour strings whose only characters besides hex digits, `#` and whitespace are `+ - . x X o O`. JavaScript's `Number` can read some of those as a colour (`+5`, `5.`, `0x1F`), and the model's `Number` covers decimal digits only.
- Renderer.JsNumber: states only the blank-string case, because `Number` is modelled only on digit strings.
- Renderer.SendDiscordMessage: of the discord.js builders' checks, only the length limits are modelled: title 256, description 4096, footer 2048 and button label 80, in UTF-16 units. Other builder checks are not modelled: the URLs of `setURL`, `setImage` and `setThumbnail`, the five-buttons-per-row limit, and Discord's limit on an embed's total size. Each of those fails the call before or at the first send, with nothing posted. The model expresses that failure as `Platform.first` being `SendFailed`.
- Client.Form.constructor: the page template that sets the inputs' values at load is not part of this model. The model takes the initial values to be the defaults `resetForm` restores (web/public/js/script.js:317-339).
- Renderer.EmbedColor: the valid range of `setColor` (0 to 0xFFFFFF) comes from the discord.js builders, which are not part of this model.
- Authentication, CSRF, sessions, helmet and the upload middleware (web/auth.js, the Express plumbing), and the password generator (generate-password.js): foreign calls, crypto and I/O.
- Timezone formatting on the dashboard (moment-timezone) and `formatFileSize`: date libraries and floating point.
- Markdown rendering of the preview body (`marked`), `URL.createObjectURL`, `showModal`, the `fetch` of the submit handler, `toggleScheduler`, `addButtonRow` and the DOM event wiring: browser-only code. The preview keeps the raw text where the markdown would go.
