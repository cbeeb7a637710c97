/** The history document (web/data/history.json) as the handlers in
    web/server.js and the timer callback in bot/index.js use it: an array
    of records that is appended to, and whose record with a given id is
    looked up with `findIndex` and updated in place. The file is modelled
    as one in-memory sequence; every update below is followed by a whole
    document rewrite in the source. */
module History {
  import opened Announcements

  /** `history.findIndex(item => item.id === id)`: the first record with
      that id, or -1. */
  function IndexOf(s: seq<Record>, id: Id): (k: int)
    ensures -1 <= k < |s|
    ensures k == -1 <==> forall j :: 0 <= j < |s| ==> s[j].id != id
    ensures 0 <= k ==> s[k].id == id && forall j :: 0 <= j < k ==> s[j].id != id
  {
    if s == [] then -1
    else if s[0].id == id then 0
    else
      var k := IndexOf(s[1..], id);
      if k == -1 then -1 else k + 1
  }

  /** The field assignments made on a found record: `sent`, `sentAt` and,
      after an immediate send, `messageId`; or `canceled` and
      `canceledAt`. */
  datatype Patch = MarkSent(at: Timestamp, messageId: Option<string>) | MarkCanceled(at: Timestamp)

  /** The patch sets its own fields and leaves every other field, the id
      included, as it was; a sent mark without a message id keeps the old
      one. */
  function Apply(p: Patch, r: Record): (t: Record)
    ensures t.(sent := r.sent, sentAt := r.sentAt, messageId := r.messageId,
               canceled := r.canceled, canceledAt := r.canceledAt) == r
    ensures p.MarkSent? ==>
      && t.sent && t.sentAt == Some(p.at) && t.canceled == r.canceled && t.canceledAt == r.canceledAt
      && t.messageId == (if p.messageId.Some? then p.messageId else r.messageId)
    ensures p.MarkCanceled? ==>
      && t.canceled && t.canceledAt == Some(p.at)
      && t.sent == r.sent && t.sentAt == r.sentAt && t.messageId == r.messageId
  {
    match p
    case MarkSent(at, mid) =>
      r.(sent := true, sentAt := Some(at), messageId := if mid.Some? then mid else r.messageId)
    case MarkCanceled(at) =>
      r.(canceled := true, canceledAt := Some(at))
  }

  /** The document after patching the record `findIndex` finds: only that
      record changes, and nothing at all when no record has the id. */
  function Patched(s: seq<Record>, id: Id, p: Patch): (t: seq<Record>)
    ensures |t| == |s|
    ensures IndexOf(s, id) == -1 ==> t == s
    ensures forall j :: 0 <= j < |s| && j != IndexOf(s, id) ==> t[j] == s[j]
    ensures IndexOf(s, id) >= 0 ==> t[IndexOf(s, id)] == Apply(p, s[IndexOf(s, id)])
  {
    var k := IndexOf(s, id);
    if k == -1 then s else s[k := Apply(p, s[k])]
  }

  /** Patching keeps every record's id, so the document's ids and their
      positions are unchanged. */
  lemma PatchKeepsIds(s: seq<Record>, id: Id, p: Patch)
    ensures forall j :: 0 <= j < |s| ==> Patched(s, id, p)[j].id == s[j].id
    ensures forall j :: 0 <= j < |s| && s[j].id != id ==> Patched(s, id, p)[j] == s[j]
  {
  }

  class HistoryStore {
    var records: seq<Record>

    constructor ()
      ensures records == []
    {
      records := [];
    }

    /** `history.push(messageData)`: one more record, at the end, and the
        earlier ones untouched. */
    method Append(r: Record)
      modifies this
      ensures records == old(records) + [r]
    {
      records := records + [r];
    }

    /** The linear search behind `findIndex`. */
    method FindIndex(id: Id) returns (k: int)
      ensures k == IndexOf(records, id)
    {
      var i := 0;
      while i < |records| && records[i].id != id
        invariant 0 <= i <= |records|
        invariant forall j :: 0 <= j < i ==> records[j].id != id
      {
        i := i + 1;
      }
      k := if i == |records| then -1 else i;
    }

    /** `const index = findIndex(...); if (index !== -1) { history[index].f = ...; write }`. */
    method Update(id: Id, p: Patch) returns (found: bool)
      modifies this
      ensures found <==> IndexOf(old(records), id) >= 0
      ensures records == Patched(old(records), id, p)
    {
      var k := FindIndex(id);
      found := k != -1;
      if found {
        records := records[k := Apply(p, records[k])];
      }
    }
  }

  function Reverse(s: seq<Record>): (r: seq<Record>)
    ensures |r| == |s|
    ensures forall i :: 0 <= i < |s| ==> r[i] == s[|s| - 1 - i]
  {
    if s == [] then [] else [s[|s| - 1]] + Reverse(s[..|s| - 1])
  }

  const DashboardSize := 20

  /** `history.slice(-20).reverse()`: at most the last twenty records,
      newest first. */
  function Dashboard(s: seq<Record>): (r: seq<Record>)
    ensures |r| == if |s| < DashboardSize then |s| else DashboardSize
    ensures forall i :: 0 <= i < |r| ==> r[i] == s[|s| - 1 - i]
  {
    Reverse(if |s| <= DashboardSize then s else s[|s| - DashboardSize..])
  }
}
