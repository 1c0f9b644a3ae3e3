/** The phase-2 message record: six fields fixed at construction and a read
    status that starts out unread and may be changed afterwards. */
module Messages {
  import opened Base

  /** The message statuses. Only `UNREAD` is named in the modelled code; the
      enum's other constants stand here as `Other` with their position, so
      each constant has exactly one representation. */
  datatype Status = Unread | Other(position: nat)

  datatype Message = Message(
    msgId: Uuid,
    sender: Uuid,
    recipient: Uuid,
    body: string,
    timeSent: int,
    title: string,
    status: Status)

  /** The constructor: the given fields, and status unread. */
  function NewMessage(msgId: Uuid, sender: Uuid, recipient: Uuid, body: string, timeSent: int, title: string)
    : (m: Message)
    ensures GetStatus(m) == Unread
    ensures GetSender(m) == sender && GetRecipient(m) == recipient
    ensures m.msgId == msgId && m.body == body && m.timeSent == timeSent && m.title == title
  {
    Message(msgId, sender, recipient, body, timeSent, title, Unread)
  }

  /** `getStatus`. */
  function GetStatus(m: Message): Status
  {
    m.status
  }

  /** `getSender`. */
  function GetSender(m: Message): Uuid
  {
    m.sender
  }

  /** `getRecipient`. */
  function GetRecipient(m: Message): Uuid
  {
    m.recipient
  }

  /** `setStatus`: only the status changes. */
  function SetStatus(m: Message, s: Status): (r: Message)
    ensures GetStatus(r) == s
    ensures r.(status := m.status) == m
  {
    m.(status := s)
  }

  /** The status after a run of `setStatus` calls. */
  function SetStatuses(m: Message, ss: seq<Status>): (r: Message)
    decreases |ss|
  {
    if |ss| == 0 then m else SetStatuses(SetStatus(m, ss[0]), ss[1..])
  }

  /** `getStatus` returns the status set last, and the final fields are
      those the message was built with. */
  lemma {:induction false} LastStatusWins(m: Message, ss: seq<Status>)
    requires |ss| > 0
    ensures GetStatus(SetStatuses(m, ss)) == ss[|ss| - 1]
    ensures SetStatuses(m, ss).(status := m.status) == m
    decreases |ss|
  {
    if |ss| > 1 {
      LastStatusWins(SetStatus(m, ss[0]), ss[1..]);
    }
  }

  /** The values `extractData` stores, by the Java type of the field. */
  datatype Datum =
    | IdDatum(id: Uuid)
    | TextDatum(text: string)
    | TimeDatum(time: int)
    | StatusDatum(status: Status)

  /** The keys of `extractData`'s map. */
  const DataKeys: set<string> := {"msgID", "sender", "recipient", "body", "timeSent", "title", "status"}

  /** `extractData`: the seven fields, current status included, under their
      names. */
  function ExtractData(m: Message): (d: map<string, Datum>)
    ensures d.Keys == DataKeys
    ensures FromData(d) == Some(m)
  {
    map["msgID" := IdDatum(m.msgId),
        "sender" := IdDatum(m.sender),
        "recipient" := IdDatum(m.recipient),
        "body" := TextDatum(m.body),
        "timeSent" := TimeDatum(m.timeSent),
        "title" := TextDatum(m.title),
        "status" := StatusDatum(m.status)]
  }

  /** Reads a message back out of such a map, or None when a key is missing
      or holds a value of the wrong kind. */
  function FromData(d: map<string, Datum>): Option<Message>
  {
    if DataKeys <= d.Keys
       && d["msgID"].IdDatum? && d["sender"].IdDatum? && d["recipient"].IdDatum?
       && d["body"].TextDatum? && d["timeSent"].TimeDatum? && d["title"].TextDatum?
       && d["status"].StatusDatum?
    then
      Some(Message(d["msgID"].id, d["sender"].id, d["recipient"].id, d["body"].text,
                   d["timeSent"].time, d["title"].text, d["status"].status))
    else None
  }

  /** Two messages extract to the same map only if they are equal. */
  lemma ExtractDataInjective(m1: Message, m2: Message)
    requires ExtractData(m1) == ExtractData(m2)
    ensures m1 == m2
  {
    assert FromData(ExtractData(m1)) == Some(m1);
  }

  /** The getters read what `extractData` stores, and no run of `setStatus`
      calls changes who sent or received a message. */
  lemma GettersAgreeWithData(m: Message, ss: seq<Status>)
    ensures ExtractData(m)["status"] == StatusDatum(GetStatus(m))
    ensures ExtractData(m)["sender"] == IdDatum(GetSender(m))
    ensures ExtractData(m)["recipient"] == IdDatum(GetRecipient(m))
    ensures GetSender(SetStatuses(m, ss)) == GetSender(m)
    ensures GetRecipient(SetStatuses(m, ss)) == GetRecipient(m)
  {
    if |ss| > 0 {
      LastStatusWins(m, ss);
    }
  }
}
