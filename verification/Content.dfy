/**
 What an inbound message holds once extracted (src/bridge.rs, `InboundContent`): the label
 stored as the row's body, and the bare text worth embedding.
 */
module Content {
  import opened Wrappers
  import Decimal

  /** Media sizes are byte counts; coordinates arrive as the text they are printed as. */
  datatype InboundContent =
    | Text(body: string)
    | Image(imageCaption: Option<string>, size: nat)
    | Audio(seconds: Option<nat>, isVoice: bool, size: nat)
    | Video(videoCaption: Option<string>, size: nat)
    | Document(filename: string, docCaption: Option<string>, size: nat)
    | Sticker(isAnimated: bool, size: nat)
    | Location(name: Option<string>, coordinates: string)
    | Contact(displayName: string)
    | ReactionAdded(emoji: string, reactedId: string)
    | ReactionRemoved(unreactedId: string)
    | Edit(editedId: string, newText: string)
    | Revoke(revokedId: string)
    | PollCreated(question: string, options: seq<string>, selectableCount: nat)
    | PollVote(pollId: string, selectedOptions: seq<string>)
    | DeliveryReceipt(messageIds: seq<string>, receiptStatus: string)

  const KB := 1024
  const MB := 1024 * 1024

  /** `bytes / unit` in tenths, rounded to the nearest with ties to even, as `{:.1}` prints. */
  function Tenths(bytes: nat, unit: nat): nat
    requires unit > 0
  {
    var q, r := bytes * 10 / unit, bytes * 10 % unit;
    if 2 * r > unit || (2 * r == unit && q % 2 == 1) then q + 1 else q
  }

  function OneDecimal(tenths: nat): string {
    Decimal.Print(tenths / 10) + "." + Decimal.Print(tenths % 10)
  }

  function FormatSize(bytes: nat): string {
    if bytes < KB then Decimal.Print(bytes) + "B"
    else if bytes < MB then OneDecimal(Tenths(bytes, KB)) + "KB"
    else OneDecimal(Tenths(bytes, MB)) + "MB"
  }

  function Join(parts: seq<string>, sep: string): string {
    if parts == [] then ""
    else if |parts| == 1 then parts[0]
    else parts[0] + sep + Join(parts[1..], sep)
  }

  /** What closes a bracketed label: the bracket, and the caption when there is one. */
  function Closing(caption: Option<string>): string {
    match caption
    case Some(c) => "] " + c
    case None => "]"
  }

  function Captioned(head: string, caption: Option<string>): string {
    "[" + head + Closing(caption)
  }

  function Kind(c: InboundContent): string {
    match c
    case Text(_) => "text"
    case Image(_, _) => "image"
    case Audio(_, _, _) => "audio"
    case Video(_, _) => "video"
    case Document(_, _, _) => "document"
    case Sticker(_, _) => "sticker"
    case Location(_, _) => "location"
    case Contact(_) => "contact"
    case ReactionAdded(_, _) => "reaction"
    case ReactionRemoved(_) => "reaction-removed"
    case Edit(_, _) => "edit"
    case Revoke(_) => "revoke"
    case PollCreated(_, _, _) => "poll"
    case PollVote(_, _) => "poll-vote"
    case DeliveryReceipt(_, _) => "delivery-receipt"
  }

  /** `mediaLen` replaces the byte count of a media message: a history row carries no bytes. */
  function DisplayText(c: InboundContent, mediaLen: Option<nat>): string {
    match c
    case Text(body) => body
    case Image(caption, size) => Captioned("image " + FormatSize(mediaLen.GetOr(size)), caption)
    case Audio(seconds, isVoice, size) =>
      var kind := if isVoice then "voice" else "audio";
      var bytes := FormatSize(mediaLen.GetOr(size));
      (match seconds
       case Some(s) => "[" + kind + " " + Decimal.Print(s) + "s " + bytes + "]"
       case None => "[" + kind + " " + bytes + "]")
    case Video(caption, size) => Captioned("video " + FormatSize(mediaLen.GetOr(size)), caption)
    case Document(filename, caption, size) =>
      Captioned("doc: " + filename + " " + FormatSize(mediaLen.GetOr(size)), caption)
    case Sticker(isAnimated, size) =>
      (if isAnimated then "[animated sticker " else "[sticker ") + FormatSize(mediaLen.GetOr(size)) + "]"
    case Location(name, coordinates) =>
      (match name
       case Some(n) => "[location: " + n + " (" + coordinates + ")]"
       case None => "[location: " + coordinates + "]")
    case Contact(displayName) => "[contact: " + displayName + "]"
    case ReactionAdded(emoji, id) => "[react " + emoji + " on " + id + "]"
    case ReactionRemoved(id) => "[unreact on " + id + "]"
    case Edit(id, newText) => "[edit " + id + "] " + newText
    case Revoke(id) => "[deleted " + id + "]"
    case PollCreated(question, options, count) =>
      "[poll: " + question + " (pick " + Decimal.Print(count) + ") \U{2014} " + Join(options, " | ") + "]"
    case PollVote(id, selected) => "[vote on " + id + ": " + Join(selected, ", ") + "]"
    case DeliveryReceipt(ids, status) =>
      "[receipt: " + status + " for " + Decimal.Print(|ids|) + " message(s)]"
  }

  /** The natural-language text of a message, without labels; `None` when there is none. */
  function EmbeddableText(c: InboundContent): Option<string> {
    match c
    case Text(body) => NonEmpty(Some(body))
    case Image(caption, _) => NonEmpty(caption)
    case Video(caption, _) => NonEmpty(caption)
    case Document(_, caption, _) => NonEmpty(caption)
    case PollCreated(question, options, _) =>
      Some(if options == [] then question else question + " | " + Join(options, " | "))
    case Contact(displayName) => NonEmpty(Some(displayName))
    case Location(name, _) => NonEmpty(name)
    case _ => None
  }

  /** Whether the row is stored `pending` (to embed) rather than `skipped`. */
  predicate Embeddable(c: InboundContent) {
    EmbeddableText(c).Some?
  }
}
