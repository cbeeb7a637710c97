/** The values that travel through the announcement pipeline: the records
    kept in the history document and the pieces of a request they are
    built from. JavaScript's "falsy" empty string stands for a missing
    optional text field throughout. */
module Announcements {

  datatype Option<+T> = None | Some(value: T)

  /** An announcement id (a UUID string in the running system). */
  type Id = string

  /** Milliseconds since the Unix epoch, the unit of `Date.getTime()`. */
  type Timestamp = int

  /** A date string after `new Date(...)`: a point in time, or the
      "Invalid Date" a non-empty unparsable string produces. */
  datatype Instant = At(ms: Timestamp) | InvalidDate

  /** An uploaded file as the upload middleware describes it. */
  datatype FileInfo = FileInfo(originalName: string, path: string, size: nat, mimeType: string)

  /** A link button as it is stored: `{label, url}` (`label` is a Dafny keyword, hence `caption`). */
  datatype Button = Button(caption: string, url: string)

  /** The `color` member of the parsed embed JSON: absent (or null/false),
      a string, an integer, or some other JSON value. */
  datatype ColorValue = NoColor | ColorText(text: string) | ColorNumber(n: int) | OtherColorJson

  /** The parsed embed object; an empty string is an absent member. */
  datatype EmbedData = EmbedData(
    title: string,
    description: string,
    color: ColorValue,
    image: string,
    thumbnail: string,
    footer: string)

  datatype Author = Author(id: string, username: string, avatar: string, discriminator: string, timezone: string)

  /** One entry of the history document. */
  datatype Record = Record(
    id: Id,
    channelId: string,
    content: string,
    files: seq<FileInfo>,
    roleId: Option<string>,
    buttons: seq<Button>,
    embed: Option<EmbedData>,
    attachmentPosition: string,
    scheduled: bool,
    scheduledTime: Instant,
    createdAt: Timestamp,
    sent: bool,
    canceled: bool,
    author: Author,
    sentAt: Option<Timestamp>,
    messageId: Option<string>,
    canceledAt: Option<Timestamp>)
}
