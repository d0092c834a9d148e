/** The chat composer of `message-input.tsx`: the text being typed, the
    submit handler, emoji insertion and the send/microphone button.

    The awaited `sendTextMessage` call is a parameter: whether it
    reported success.  It never throws; it reports failure instead. */
module MessageInput {
  import opened Wrappers
  import opened Strings

  type ConversationId = string

  /** What the composer asks `sendTextMessage` to send. */
  datatype SendRequest = SendRequest(content: string, conversationId: ConversationId)

  /** `handleSendTextMsg`: nothing happens for blank text or without an
      open conversation; otherwise the trimmed text is sent, and the text
      is cleared only if the send succeeded. */
  function HandleSendTextMsg(text: string, selected: Option<ConversationId>, success: bool)
    : (r: (Option<SendRequest>, string))
    ensures r.0.None? <==> AllWhitespace(text) || selected.None?
    ensures r.0.Some? ==> r.0.value == SendRequest(Trim(text), selected.value)
    ensures r.0.Some? && success ==> r.1 == ""
    ensures r.0.None? || !success ==> r.1 == text
  {
    var content := Trim(text);
    if content == "" || selected.None? then (None, text)
    else if success then (Some(SendRequest(content, selected.value)), "")
    else (Some(SendRequest(content, selected.value)), text)
  }

  /** A message is sent only for non-blank text in an open conversation,
      and what is sent is never blank and carries no whitespace at either
      end. */
  lemma SentContentIsTrimmedText(text: string, selected: Option<ConversationId>, success: bool)
    requires HandleSendTextMsg(text, selected, success).0.Some?
    ensures !AllWhitespace(text) && selected.Some?
    ensures var c := HandleSendTextMsg(text, selected, success).0.value.content;
      && c == Trim(text) && |c| > 0
      && !IsJsWhitespace(c[0]) && !IsJsWhitespace(c[|c| - 1])
  {
  }

  /** `handleEmojiSelect`: the emoji goes at the end of the text. */
  function HandleEmojiSelect(text: string, emoji: string): (t: string)
    ensures |t| == |text| + |emoji|
    ensures t[..|text|] == text && t[|text|..] == emoji
  {
    text + emoji
  }

  /** Picking emojis one after another appends them in order. */
  lemma {:induction false} EmojisAppendInOrder(text: string, emojis: seq<string>)
    ensures SelectAll(text, emojis) == text + Concat(emojis)
    decreases |emojis|
  {
    if |emojis| > 0 {
      var last := emojis[|emojis| - 1];
      var init := emojis[..|emojis| - 1];
      EmojisAppendInOrder(text, init);
      assert Concat(emojis) == Concat(init) + last;
    }
  }

  function SelectAll(text: string, emojis: seq<string>): string
    decreases |emojis|
  {
    if |emojis| == 0 then text
    else HandleEmojiSelect(SelectAll(text, emojis[..|emojis| - 1]), emojis[|emojis| - 1])
  }

  function Concat(parts: seq<string>): string
    decreases |parts|
  {
    if |parts| == 0 then "" else Concat(parts[..|parts| - 1]) + parts[|parts| - 1]
  }

  /** The button icon: "send" for any non-empty text, even blank text,
      else the microphone. */
  datatype Icon = Send | Mic

  function ButtonIcon(text: string): (i: Icon)
    ensures i == Send <==> |text| > 0
  {
    if |text| > 0 then Send else Mic
  }

  /** Blank but non-empty text shows the send icon and sends nothing. */
  lemma BlankTextShowsSendButSendsNothing(text: string, selected: Option<ConversationId>, success: bool)
    requires |text| > 0 && AllWhitespace(text)
    ensures ButtonIcon(text) == Send
    ensures HandleSendTextMsg(text, selected, success) == (None, text)
  {
  }

  /** After a successful send the button shows the microphone again;
      after a failed one the text, and so the icon, stay. */
  lemma SendOutcomeIcon(text: string, conversation: ConversationId, success: bool)
    requires !AllWhitespace(text)
    ensures var r := HandleSendTextMsg(text, Some(conversation), success);
      ButtonIcon(r.1) == (if success then Mic else ButtonIcon(text))
  {
  }
}
