/**
 What each kind of message is embedded as (src/bridge.rs, `InboundContent::embeddable_text`;
 src/embed_drain.rs, `prepare_text_for_embedding`), and what the size in a label tells.
 */
module EmbedLabels {
  import opened Wrappers
  import opened History
  import opened PhoneHistory
  import opened Content
  import opened EmbedText
  import opened Persist
  import Decimal

  /** Kinds that hold words of somebody. */
  predicate HoldsWords(c: InboundContent) {
    match c
    case Text(body) => body != ""
    case Image(caption, _) => caption.Some? && caption.value != ""
    case Video(caption, _) => caption.Some? && caption.value != ""
    case Document(_, caption, _) => caption.Some? && caption.value != ""
    case Location(name, _) => name.Some? && name.value != ""
    case Contact(displayName) => displayName != ""
    case PollCreated(_, _, _) => true
    case _ => false
  }

  /** A row is written as pending exactly when its message holds words. */
  lemma PendingExactly(chat: string, source: string, m: WebMessageInfo)
    requires Storable(m)
    ensures Extract(chat, source, m).value.row.pending <==> HoldsWords(m.payload.value.content)
  {
  }

  /** Text and captions are embedded as they are, unless a document's file name holds a `]`; locations,
      contacts and polls as their whole label; nothing else is embedded. */
  lemma EmbeddedAs(c: InboundContent, mediaLen: Option<nat>)
    ensures var drained := Prepare(Kind(c), StoredBody(c, mediaLen), None);
            match c
            case Text(body) => drained == NonEmpty(Some(body))
            case Image(caption, _) => drained == NonEmpty(caption)
            case Video(caption, _) => drained == NonEmpty(caption)
            case Document(filename, caption, _) => !HasBracket(filename) ==> drained == NonEmpty(caption)
            case Location(_, _) => drained == Some(DisplayText(c, mediaLen))
            case Contact(_) => drained == Some(DisplayText(c, mediaLen))
            case PollCreated(_, _, _) => drained == Some(DisplayText(c, mediaLen))
            case _ => drained == None
  {
    if c.Text? || c.Image? || c.Video? || c.Document? {
      LabelRoundTrip(c, mediaLen);
    }
  }

  /** The words of a contact or a named location stand in its label; a poll's are its question and its
      options, separated by bars. */
  lemma WordsInLabel(c: InboundContent, mediaLen: Option<nat>)
    requires c.Contact? || c.Location? || c.PollCreated?
    ensures HoldsWords(c) <==> EmbeddableText(c).Some?
    ensures c.Contact? && HoldsWords(c) ==> DisplayText(c, mediaLen) == "[contact: " + EmbeddableText(c).value + "]"
    ensures c.Location? && HoldsWords(c) ==>
              DisplayText(c, mediaLen) == "[location: " + EmbeddableText(c).value + " (" + c.coordinates + ")]"
    ensures c.PollCreated? ==> EmbeddableText(c) == Some(Join([c.question] + c.options, " | "))
  {
    if c.PollCreated? {
      assert ([c.question] + c.options)[1..] == c.options;
    }
  }

  /** A voice note is told from other audio by its label. */
  lemma VoiceLabel(seconds: Option<nat>, isVoice: bool, size: nat, mediaLen: Option<nat>)
    ensures (if isVoice then "[voice " else "[audio ") <= DisplayText(Audio(seconds, isVoice, size), mediaLen)
  {
  }

  /** An animated sticker is told from others by its label. */
  lemma StickerLabel(isAnimated: bool, size: nat, mediaLen: Option<nat>)
    ensures (if isAnimated then "[animated sticker " else "[sticker ")
         <= DisplayText(Sticker(isAnimated, size), mediaLen)
  {
  }

  // ----- sizes -----

  /** The tenths shown are the nearest ones, and the even ones of two equally near. */
  lemma TenthsAreNearest(bytes: nat, unit: nat)
    requires unit > 0
    ensures var error := 2 * (unit * Tenths(bytes, unit) - 10 * bytes);
            error <= unit && 0 <= error + unit && (error == unit || error + unit == 0 ==> Tenths(bytes, unit) % 2 == 0)
  {
    var q, r := bytes * 10 / unit, bytes * 10 % unit;
    assert unit * q + r == bytes * 10;
  }

  /** A number with one decimal is printed with its tenths behind the point. */
  lemma TenthsAreShown(tenths: nat)
    ensures var whole := Decimal.Print(tenths / 10);
            exists d :: Decimal.IsDigit(d) && OneDecimal(tenths) == whole + "." + [d]
                        && 10 * Decimal.Value(whole) + Decimal.DigitValue(d) == tenths
  {
    var d := Decimal.Digit(tenths % 10);
    Decimal.PrintThenRead(tenths / 10);
    assert Decimal.Print(tenths % 10) == [d];
    assert OneDecimal(tenths) == Decimal.Print(tenths / 10) + "." + [d];
  }

  lemma TwelvePointOne()
    ensures FormatSize(12345) == "12.1KB"
  {
    assert Tenths(12345, KB) == 121;
    assert Decimal.Print(1) == "1" && Decimal.Print(12) == Decimal.Print(1) + "2";
  }

  /** A picture shows the length its reference gives, in place of that of the bytes it came with. */
  lemma PictureShowsLength(caption: string, size: nat, mediaLen: Option<nat>)
    ensures DisplayText(Image(Some(caption), size), mediaLen)
         == "[image " + FormatSize(mediaLen.GetOr(size)) + "] " + caption
  {
  }

  /** A stored picture's row shows the file length its reference gives, when that is one. */
  lemma StoredPictureLabel(chat: string, source: string, m: WebMessageInfo, caption: string, size: nat)
    requires Storable(m) && m.payload.value.content == Image(Some(caption), size)
    ensures var row, media := Extract(chat, source, m).value.row, m.payload.value.mediaRef;
            && row.kind == "image"
            && (forall n: nat :: media.Some? && media.value.fileLength == Some(n) ==>
                  row.body == Some("[image " + FormatSize(n) + "] " + caption))
            && (media.None? || media.value.fileLength.None? || media.value.fileLength.value < 0 ==>
                  row.body == Some("[image " + FormatSize(size) + "] " + caption))
  {
    PictureShowsLength(caption, size, MediaLength(m.payload.value.mediaRef));
  }
}
