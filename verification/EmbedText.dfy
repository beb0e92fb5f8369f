/**
 Recovering the text to embed from a stored row (src/embed_drain.rs,
 `prepare_text_for_embedding`): the inverse of the label that `Content.DisplayText` prints.
 */
module EmbedText {
  import opened Wrappers
  import opened Content

  /** The part after the first `]`, or `None` without one. */
  function AfterBracket(text: string): Option<string> {
    if text == "" then None
    else if text[0] == ']' then Some(text[1..])
    else AfterBracket(text[1..])
  }

  function StripSpace(text: string): string {
    if text != "" && text[0] == ' ' then text[1..] else text
  }

  /** The bare text of a label, by kind; `None` for a kind that is never embedded. */
  function BareText(kind: string, body: string): Option<string> {
    if kind == "text" then Some(body)
    else if kind == "image" || kind == "video" || kind == "document" then
      (match AfterBracket(body)
       case Some(after) => Some(StripSpace(after))
       case None => Some(body))
    else if kind == "location" || kind == "contact" || kind == "poll" then Some(body)
    else None
  }

  function Truncate(text: string, limit: Option<nat>): string {
    if limit.Some? && |text| > limit.value then text[..limit.value] else text
  }

  function Prepare(kind: string, body: Option<string>, limit: Option<nat>): Option<string> {
    match body
    case None => None
    case Some(text) =>
      match BareText(kind, text)
      case None => None
      case Some(bare) => if bare == "" then None else NonEmpty(Some(Truncate(bare, limit)))
  }

  /** The body a row is stored with: the label, or no body when the label is empty. */
  function StoredBody(c: InboundContent, mediaLen: Option<nat>): Option<string> {
    NonEmpty(Some(DisplayText(c, mediaLen)))
  }

  predicate HasBracket(s: string) { ']' in s }

  /** `rest` is the end of `s`. */
  predicate EndsWith(s: string, rest: string) {
    |rest| <= |s| && s[|s| - |rest|..] == rest
  }

  /** With a `]` in front, what follows the first one still ends with the rest. */
  lemma {:induction false} AfterEarlierBracket(head: string, rest: string)
    requires HasBracket(head)
    ensures AfterBracket(head + rest).Some? && EndsWith(AfterBracket(head + rest).value, rest)
  {
    var tail := head[1..] + rest;
    assert (head + rest)[1..] == tail;
    if head[0] == ']' {
      assert tail[|head| - 1..] == rest;
    } else {
      AfterEarlierBracket(head[1..], rest);
    }
  }

  /** Without one in front, the text splits at the bracket. */
  lemma {:induction false} AfterFirstBracket(head: string, rest: string)
    requires !HasBracket(head)
    ensures AfterBracket(head + "]" + rest) == Some(rest)
  {
    var s := head + "]" + rest;
    if head == "" {
      assert s[1..] == rest;
    } else {
      assert s[1..] == head[1..] + "]" + rest;
      assert head[0] in head && forall c :: c in head[1..] ==> c in head;
      AfterFirstBracket(head[1..], rest);
    }
  }

  lemma SizeHasNoBracket(bytes: nat)
    ensures !HasBracket(FormatSize(bytes))
  {
  }

  /** Splitting a captioned label whose bracketed part holds no `]` gives back the caption. */
  lemma CaptionedSplits(head: string, caption: Option<string>)
    requires !HasBracket(head)
    ensures AfterBracket(Captioned(head, caption)).Some?
    ensures StripSpace(AfterBracket(Captioned(head, caption)).value) == caption.GetOr("")
  {
    var rest := match caption case Some(c) => " " + c case None => "";
    AfterFirstBracket("[" + head, rest);
    assert Captioned(head, caption) == "[" + head + "]" + rest;
  }

  /** A `]` inside the bracketed part makes the recovered text longer than the caption. */
  lemma BracketInHeadLeaks(head: string, tail: string, caption: Option<string>)
    requires HasBracket(head) && |tail| > 0
    ensures AfterBracket(Captioned(head + tail, caption)).Some?
    ensures |StripSpace(AfterBracket(Captioned(head + tail, caption)).value)| > |caption.GetOr("")|
  {
    assert HasBracket("[" + head) by {
      assert ("[" + head)[1..] == head;
    }
    var rest := tail + Closing(caption);
    AfterEarlierBracket("[" + head, rest);
    assert "[" + (head + tail) + Closing(caption) == "[" + head + rest;
    assert |rest| > 1 + |caption.GetOr("")|;
  }

  lemma BracketInFilenameLeaks(filename: string, caption: Option<string>, size: nat, mediaLen: Option<nat>)
    requires HasBracket(filename)
    ensures var c := Document(filename, caption, size);
            && AfterBracket(DisplayText(c, mediaLen)).Some?
            && |StripSpace(AfterBracket(DisplayText(c, mediaLen)).value)| > |caption.GetOr("")|
  {
    var head, tail := "doc: " + filename, " " + FormatSize(mediaLen.GetOr(size));
    assert HasBracket(head) by {
      assert head[5..] == filename;
    }
    BracketInHeadLeaks(head, tail, caption);
    assert "doc: " + filename + " " + FormatSize(mediaLen.GetOr(size)) == head + tail;
  }

  /**
   For text, images and videos the drain recovers exactly the text the write path classified,
   whatever size the label shows; for documents it does exactly when the filename holds no `]`.
   */
  lemma LabelRoundTrip(c: InboundContent, mediaLen: Option<nat>)
    requires c.Text? || c.Image? || c.Video? || c.Document?
    ensures Prepare(Kind(c), StoredBody(c, mediaLen), None) == EmbeddableText(c)
            <==> (c.Document? ==> !HasBracket(c.filename))
  {
    match c {
      case Text(body) =>
      case Image(caption, size) =>
        SizeHasNoBracket(mediaLen.GetOr(size));
        CaptionedSplits("image " + FormatSize(mediaLen.GetOr(size)), caption);
      case Video(caption, size) =>
        SizeHasNoBracket(mediaLen.GetOr(size));
        CaptionedSplits("video " + FormatSize(mediaLen.GetOr(size)), caption);
      case Document(filename, caption, size) =>
        var shown := FormatSize(mediaLen.GetOr(size));
        SizeHasNoBracket(mediaLen.GetOr(size));
        if HasBracket(filename) {
          BracketInFilenameLeaks(filename, caption, size, mediaLen);
        } else {
          CaptionedSplits("doc: " + filename + " " + shown, caption);
        }
    }
  }

  /** With a token limit the drain embeds the prefix of that many characters, or nothing. */
  lemma LimitTakesPrefix(kind: string, body: Option<string>, limit: nat)
    ensures var full, cut := Prepare(kind, body, None), Prepare(kind, body, Some(limit));
            && (cut.Some? <==> full.Some? && limit > 0)
            && (cut.Some? ==> cut.value <= full.value
                              && |cut.value| == (if |full.value| < limit then |full.value| else limit))
  {
  }

  /**
   A row classified `pending` when written always has text when drained, for every kind of
   content and every positive limit: the drain never marks such a row `failed`.
   */
  lemma PendingRowsHaveText(c: InboundContent, mediaLen: Option<nat>, limit: Option<nat>)
    requires Embeddable(c) && (limit.Some? ==> limit.value > 0)
    ensures Prepare(Kind(c), StoredBody(c, mediaLen), limit).Some?
  {
    if c.Text? || c.Image? || c.Video? || c.Document? {
      LabelRoundTrip(c, mediaLen);
      if c.Document? && HasBracket(c.filename) {
        BracketInFilenameLeaks(c.filename, c.docCaption, c.size, mediaLen);
      }
    }
  }
}
