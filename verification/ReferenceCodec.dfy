/**
 Portable object references: `ref1.<kind>.<base64 of JSON>`, with size and shape gates on both sides.

 JSON is a parameter: a pair of functions per payload, assumed to round-trip.
 */
module ReferenceCodec {
  import opened Base
  import Base64

  const PREFIX: string := "ref1"
  const MAX_REFERENCE_BYTES: nat := 49152
  const MAX_PAYLOAD_BYTES: nat := 32768
  const MAX_ACCOUNT_BYTES: nat := 256
  const MAX_LOCATOR_BYTES: nat := 8192
  const MAX_FILENAME_BYTES: nat := 1024

  datatype MailSource = Item(folderId: Text, serverId: Text) | LongId(longId: Text)

  /** `fields` stands for the message content a reference does not carry. */
  datatype MailItem = MailItem(account: Text, folderId: Text, source: MailSource, fields: Text)

  datatype Instant = Instant(year: int, withinYear: int, nanosecond: nat)

  datatype EventItem = EventItem(occurrenceStart: Option<Instant>, account: Text, longId: Text,
                                 collectionId: Option<Text>, serverId: Option<Text>, uid: Option<Text>, fields: Text)

  datatype Attachment = Attachment(account: Text, fileReference: Text, displayName: Text)

  datatype Meeting = MeetingEvent(event: EventItem) | MeetingMail(mail: MailItem)

  datatype MailPayload = MailPayload(account: Text, source: MailSource)
  datatype EventPayload = EventPayload(occurrenceStart: Option<Instant>, account: Text, uid: Option<Text>, longId: Text,
                                       collectionId: Option<Text>, serverId: Option<Text>)

  /** One payload type's JSON writer and reader. */
  datatype Json<!P> = Json(write: P -> seq<Byte>, read: seq<Byte> -> Option<P>)

  /** Every valid payload, whose texts are UTF-8, is read back from what is written. */
  ghost predicate RoundTrips<P(!new)>(j: Json<P>, valid: P -> bool) {
    forall p: P | valid(p) :: j.write(p) != [] && j.read(j.write(p)) == Some(p)
  }

  datatype Formats = Formats(mail: Json<MailPayload>, event: Json<EventPayload>, attachment: Json<Attachment>)

  ghost predicate Lossless(f: Formats) {
    RoundTrips(f.mail, ValidMail) && RoundTrips(f.event, ValidEvent) && RoundTrips(f.attachment, ValidAttachment)
  }

  // ----- Splitting on dots -----

  function SplitOnce(s: string): Option<(string, string)> {
    if s == "" then None
    else if s[0] == '.' then Some(("", s[1..]))
    else
      match SplitOnce(s[1..])
      case None => None
      case Some((head, tail)) => Some(([s[0]] + head, tail))
  }

  lemma {:induction false} SplitShortens(s: string)
    ensures SplitOnce(s).Some? ==> s == SplitOnce(s).value.0 + "." + SplitOnce(s).value.1
    ensures SplitOnce(s).None? <==> '.' !in s
  {
    if s != "" && s[0] != '.' {
      SplitShortens(s[1..]);
      assert s == [s[0]] + s[1..];
    } else if s != "" {
      assert s == "" + "." + s[1..];
    }
  }

  lemma {:induction false} SplitAt(head: string, tail: string)
    requires '.' !in head
    ensures SplitOnce(head + "." + tail) == Some((head, tail))
  {
    var s := head + "." + tail;
    if head == "" {
      assert s[1..] == tail;
    } else {
      SplitAt(head[1..], tail);
      assert s[1..] == head[1..] + "." + tail;
      assert [head[0]] + head[1..] == head;
    }
  }

  /** The kind tag of a reference with exactly three parts, the last two not empty. */
  function KindOf(value: string): Option<string> {
    match SplitOnce(value)
    case None => None
    case Some((prefix, rest)) =>
      match SplitOnce(rest)
      case None => None
      case Some((kind, encoded)) =>
        if prefix == PREFIX && kind != "" && encoded != "" && SplitOnce(encoded).None? then Some(kind) else None
  }

  // ----- The generic envelope -----

  function Wrap(kind: string, bytes: seq<Byte>): Result<string, ErrorCode> {
    if |bytes| > MAX_PAYLOAD_BYTES then Err(ValidationFailed)
    else Ok(PREFIX + "." + kind + "." + Base64.Encode(bytes))
  }

  function Unwrap(kind: string, value: string): Result<seq<Byte>, ErrorCode> {
    if |value| > MAX_REFERENCE_BYTES || KindOf(value) != Some(kind) then Err(ValidationFailed)
    else
      match SplitOnce(value)
      case None => Err(ValidationFailed)
      case Some((_, rest)) =>
        match SplitOnce(rest)
        case None => Err(ValidationFailed)
        case Some((_, encoded)) =>
          match Base64.Decode(encoded)
          case None => Err(ValidationFailed)
          case Some(bytes) => if |bytes| > MAX_PAYLOAD_BYTES then Err(ValidationFailed) else Ok(bytes)
  }

  lemma WrappedShape(kind: string, bytes: seq<Byte>)
    requires kind != "" && '.' !in kind && bytes != [] && |bytes| <= MAX_PAYLOAD_BYTES
    ensures var value := PREFIX + "." + kind + "." + Base64.Encode(bytes);
            && KindOf(value) == Some(kind)
            && SplitOnce(value) == Some((PREFIX, kind + "." + Base64.Encode(bytes)))
            && SplitOnce(kind + "." + Base64.Encode(bytes)) == Some((kind, Base64.Encode(bytes)))
            && |value| == |kind| + 6 + (4 * |bytes| + 2) / 3
  {
    var encoded := Base64.Encode(bytes);
    var value := PREFIX + "." + kind + "." + encoded;
    assert value == PREFIX + "." + (kind + "." + encoded);
    SplitAt(PREFIX, kind + "." + encoded);
    SplitAt(kind, encoded);
    Base64.EncodedLength(bytes);
    SplitShortens(encoded);
  }

  /** What was wrapped under a kind unwraps under that kind only, and never hits the size gate. */
  lemma UnwrapWrap(kind: string, other: string, bytes: seq<Byte>)
    requires kind != "" && '.' !in kind && |kind| <= 10 && bytes != []
    requires Wrap(kind, bytes).Ok?
    ensures |Wrap(kind, bytes).value| < MAX_REFERENCE_BYTES
    ensures Unwrap(kind, Wrap(kind, bytes).value) == Ok(bytes)
    ensures other != kind ==> Unwrap(other, Wrap(kind, bytes).value) == Err(ValidationFailed)
  {
    WrappedShape(kind, bytes);
    Base64.DecodeEncode(bytes);
  }

  /** The text of an accepted reference is fixed by its kind and its bytes. */
  lemma WrapUnwrap(kind: string, value: string)
    requires Unwrap(kind, value).Ok?
    ensures Wrap(kind, Unwrap(kind, value).value) == Ok(value)
  {
    SplitShortens(value);
    var (prefix, rest) := SplitOnce(value).value;
    SplitShortens(rest);
    var (tag, encoded) := SplitOnce(rest).value;
    assert prefix == PREFIX && tag == kind;
    Base64.EncodeDecode(encoded);
    JoinsBack(prefix, tag, encoded);
  }

  lemma JoinsBack(prefix: string, tag: string, encoded: string)
    ensures prefix + "." + (tag + "." + encoded) == prefix + "." + tag + "." + encoded
  {
  }

  // ----- Validation -----

  predicate ValidMail(p: MailPayload) {
    && ValidRequired(p.account, MAX_ACCOUNT_BYTES)
    && match p.source
       case Item(folder, server) => ValidRequired(folder, MAX_LOCATOR_BYTES) && ValidRequired(server, MAX_LOCATOR_BYTES)
       case LongId(id) => ValidRequired(id, MAX_LOCATOR_BYTES)
  }

  predicate ValidEvent(p: EventPayload) {
    && (p.occurrenceStart.Some? ==> 1 <= p.occurrenceStart.value.year <= 9999 && p.occurrenceStart.value.nanosecond == 0)
    && ValidRequired(p.account, MAX_ACCOUNT_BYTES)
    && (p.uid.Some? ==> ValidRequired(p.uid.value, MAX_LOCATOR_BYTES))
    && ValidOptional(p.longId, MAX_LOCATOR_BYTES)
    && (p.collectionId.Some? ==> ValidRequired(p.collectionId.value, MAX_LOCATOR_BYTES))
    && (p.serverId.Some? ==> ValidRequired(p.serverId.value, MAX_LOCATOR_BYTES))
    && (p.longId == [] ==> p.collectionId.Some? && p.serverId.Some?)
  }

  predicate ValidAttachment(p: Attachment) {
    && ValidRequired(p.account, MAX_ACCOUNT_BYTES)
    && ValidRequired(p.fileReference, MAX_LOCATOR_BYTES)
    && ValidRequired(p.displayName, MAX_FILENAME_BYTES)
  }

  // ----- Encoders and decoders -----

  function MailPayloadOf(m: MailItem): MailPayload {
    MailPayload(m.account, m.source)
  }

  function EncodeMail(f: Formats, m: MailItem): Result<string, ErrorCode> {
    if ValidMail(MailPayloadOf(m)) then Wrap("mail", f.mail.write(MailPayloadOf(m))) else Err(ValidationFailed)
  }

  function DecodeMail(f: Formats, value: string): Result<MailItem, ErrorCode> {
    match Unwrap("mail", value)
    case Err(e) => Err(e)
    case Ok(bytes) =>
      match f.mail.read(bytes)
      case None => Err(ValidationFailed)
      case Some(p) =>
        if ValidMail(p)
        then Ok(MailItem(p.account, if p.source.Item? then p.source.folderId else [], p.source, []))
        else Err(ValidationFailed)
  }

  /** An empty uid is written as none. */
  function EventPayloadOf(e: EventItem): EventPayload {
    EventPayload(e.occurrenceStart, e.account, if e.uid == Some([]) then None else e.uid, e.longId, e.collectionId, e.serverId)
  }

  function EncodeEvent(f: Formats, e: EventItem): Result<string, ErrorCode> {
    if ValidEvent(EventPayloadOf(e)) then Wrap("event", f.event.write(EventPayloadOf(e))) else Err(ValidationFailed)
  }

  function DecodeEvent(f: Formats, value: string): Result<EventItem, ErrorCode> {
    match Unwrap("event", value)
    case Err(e) => Err(e)
    case Ok(bytes) =>
      match f.event.read(bytes)
      case None => Err(ValidationFailed)
      case Some(p) =>
        if ValidEvent(p)
        then Ok(EventItem(p.occurrenceStart, p.account, p.longId, p.collectionId, p.serverId, p.uid, []))
        else Err(ValidationFailed)
  }

  function EncodeAttachment(f: Formats, a: Attachment): Result<string, ErrorCode> {
    if ValidAttachment(a) then Wrap("attachment", f.attachment.write(a)) else Err(ValidationFailed)
  }

  function DecodeAttachment(f: Formats, value: string): Result<Attachment, ErrorCode> {
    match Unwrap("attachment", value)
    case Err(e) => Err(e)
    case Ok(bytes) =>
      match f.attachment.read(bytes)
      case None => Err(ValidationFailed)
      case Some(p) => if ValidAttachment(p) then Ok(p) else Err(ValidationFailed)
  }

  function DecodeMeeting(f: Formats, value: string): Result<Meeting, ErrorCode> {
    match KindOf(value)
    case None => Err(ValidationFailed)
    case Some(kind) =>
      if kind == "event" then
        match DecodeEvent(f, value)
        case Ok(e) => Ok(MeetingEvent(e))
        case Err(e) => Err(e)
      else if kind == "mail" then
        match DecodeMail(f, value)
        case Ok(m) => Ok(MeetingMail(m))
        case Err(e) => Err(e)
      else Err(ValidationFailed)
  }

  // ----- Round trips -----

  /**
   What encodes at all: JSON of at most 32 KiB, an account of at most 256 bytes, and identifiers of at most 8 KiB, all of
   them required and free of control characters; an event needs its collection and id when it has no long id, and
   a whole second of the years 1 to 9999 when it names an occurrence.
   */
  lemma EncodesExactly(f: Formats, m: MailItem, e: EventItem, a: Attachment)
    ensures EncodeMail(f, m).Ok? <==>
              && |f.mail.write(MailPayload(m.account, m.source))| <= 32 * 1024 && ValidRequired(m.account, 256)
              && (m.source.Item? ==> ValidRequired(m.source.folderId, 8192) && ValidRequired(m.source.serverId, 8192))
              && (m.source.LongId? ==> ValidRequired(m.source.longId, 8192))
    ensures EncodeMail(f, m).Ok? ==>
              EncodeMail(f, m).value == "ref1.mail." + Base64.Encode(f.mail.write(MailPayload(m.account, m.source)))
    ensures EncodeEvent(f, e).Ok? <==>
              && |f.event.write(EventPayloadOf(e))| <= 32 * 1024 && ValidRequired(e.account, 256)
              && ValidOptional(e.longId, 8192) && (e.longId == [] ==> e.collectionId.Some? && e.serverId.Some?)
              && (forall t | t == e.collectionId || t == e.serverId || (t == e.uid && t != Some([])) :: t.Some? ==> ValidRequired(t.value, 8192))
              && (e.occurrenceStart.Some? ==> 1 <= e.occurrenceStart.value.year <= 9999 && e.occurrenceStart.value.nanosecond == 0)
    ensures EncodeAttachment(f, a).Ok? <==>
              && |f.attachment.write(a)| <= 32 * 1024 && ValidRequired(a.account, 256)
              && ValidRequired(a.fileReference, 8192) && ValidRequired(a.displayName, 1024)
  {
    assert PREFIX + "." + "mail" + "." == "ref1.mail.";
    var bytes := f.mail.write(MailPayload(m.account, m.source));
    assert PREFIX + "." + "mail" + "." + Base64.Encode(bytes) == "ref1.mail." + Base64.Encode(bytes);
  }

  /** A mail reference gives back its account and locator, to the mail decoders only. */
  lemma MailRoundTrip(f: Formats, m: MailItem)
    requires Lossless(f) && EncodeMail(f, m).Ok?
    ensures var value := EncodeMail(f, m).value;
            && |value| < MAX_REFERENCE_BYTES
            && DecodeMail(f, value) == Ok(MailItem(m.account, if m.source.Item? then m.source.folderId else [], m.source, []))
            && DecodeMeeting(f, value) == Ok(MeetingMail(DecodeMail(f, value).value))
            && DecodeEvent(f, value).Err? && DecodeAttachment(f, value).Err?
  {
    var p := MailPayloadOf(m);
    assert f.mail.write(p) != [] && f.mail.read(f.mail.write(p)) == Some(p);
    UnwrapWrap("mail", "event", f.mail.write(p));
    UnwrapWrap("mail", "attachment", f.mail.write(p));
    WrappedShape("mail", f.mail.write(p));
  }

  lemma EventRoundTrip(f: Formats, e: EventItem)
    requires Lossless(f) && EncodeEvent(f, e).Ok?
    ensures var value := EncodeEvent(f, e).value;
            && |value| < MAX_REFERENCE_BYTES
            && DecodeEvent(f, value) == Ok(e.(uid := if e.uid == Some([]) then None else e.uid, fields := []))
            && DecodeMeeting(f, value) == Ok(MeetingEvent(DecodeEvent(f, value).value))
            && DecodeMail(f, value).Err? && DecodeAttachment(f, value).Err?
  {
    var p := EventPayloadOf(e);
    assert f.event.write(p) != [] && f.event.read(f.event.write(p)) == Some(p);
    UnwrapWrap("event", "mail", f.event.write(p));
    UnwrapWrap("event", "attachment", f.event.write(p));
    WrappedShape("event", f.event.write(p));
  }

  lemma AttachmentRoundTrip(f: Formats, a: Attachment)
    requires Lossless(f) && EncodeAttachment(f, a).Ok?
    ensures var value := EncodeAttachment(f, a).value;
            && |value| < MAX_REFERENCE_BYTES
            && DecodeAttachment(f, value) == Ok(a)
            && DecodeMail(f, value).Err? && DecodeEvent(f, value).Err? && DecodeMeeting(f, value).Err?
  {
    assert f.attachment.write(a) != [] && f.attachment.read(f.attachment.write(a)) == Some(a);
    UnwrapWrap("attachment", "mail", f.attachment.write(a));
    UnwrapWrap("attachment", "event", f.attachment.write(a));
    WrappedShape("attachment", f.attachment.write(a));
  }
}
