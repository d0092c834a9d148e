/** The attachment menu of `media-dropdown.tsx`: one chosen image and one
    chosen video, a loading flag, the two send handlers and the two
    preview dialogs.

    A send handler runs in two steps around the awaited upload: it
    starts (raising the loading flag and issuing the upload) and it
    finishes with the upload's reported outcome.  `uploadImage` and
    `uploadVideo` never throw; they report failure instead. */
module MediaDropdown {
  import opened Wrappers

  type ConversationId = string

  datatype File = File(name: string, mimeType: string)

  datatype State = State(selectedImage: Option<File>, selectedVideo: Option<File>, isLoading: bool)

  const Initial := State(None, None, false)

  datatype Kind = Image | Video

  /** The upload a handler issues: `uploadImage(file, conversationId)` or
      `uploadVideo(file, conversationId)`. */
  datatype Upload = Upload(kind: Kind, file: File, conversationId: ConversationId)

  function Selected(s: State, kind: Kind): Option<File> {
    if kind == Image then s.selectedImage else s.selectedVideo
  }

  function WithSelected(s: State, kind: Kind, f: Option<File>): (s': State)
    ensures Selected(s', kind) == f
    ensures Selected(s', Other(kind)) == Selected(s, Other(kind)) && s'.isLoading == s.isLoading
  {
    if kind == Image then s.(selectedImage := f) else s.(selectedVideo := f)
  }

  function Other(kind: Kind): Kind {
    if kind == Image then Video else Image
  }

  /** The file inputs' `onChange`: the first chosen file replaces the
      selection; a cancelled chooser leaves `undefined`, which counts as
      no selection. */
  function Choose(s: State, kind: Kind, files: seq<File>): (s': State)
    ensures Selected(s', kind) == (if |files| > 0 then Some(files[0]) else None)
    ensures Selected(s', Other(kind)) == Selected(s, Other(kind)) && s'.isLoading == s.isLoading
  {
    WithSelected(s, kind, if |files| > 0 then Some(files[0]) else None)
  }

  /** The start of `handleSendImage` / `handleSendVideo`: without a chosen
      file or an open conversation nothing happens; otherwise the
      loading flag goes up and the upload is issued. */
  function StartSend(s: State, kind: Kind, conversation: Option<ConversationId>): (r: Option<(Upload, State)>)
    ensures r.None? <==> Selected(s, kind).None? || conversation.None?
    ensures r.Some? ==>
      && r.value.0 == Upload(kind, Selected(s, kind).value, conversation.value)
      && r.value.1 == s.(isLoading := true)
  {
    match (Selected(s, kind), conversation)
    case (Some(f), Some(c)) => Some((Upload(kind, f, c), s.(isLoading := true)))
    case _ => None
  }

  /** The end of the handler: a successful upload clears that kind's
      selection, a failed one keeps it; either way loading stops. */
  function FinishSend(s: State, kind: Kind, success: bool): (s': State)
    ensures !s'.isLoading
    ensures Selected(s', kind) == (if success then None else Selected(s, kind))
    ensures Selected(s', Other(kind)) == Selected(s, Other(kind))
  {
    WithSelected(s, kind, if success then None else Selected(s, kind)).(isLoading := false)
  }

  /** The whole handler, for an upload that reports `success`. */
  function HandleSend(s: State, kind: Kind, conversation: Option<ConversationId>, success: bool)
    : (r: (Option<Upload>, State))
    ensures r.0.None? ==> r.1 == s
    ensures r.0.Some? ==> !r.1.isLoading
  {
    match StartSend(s, kind, conversation)
    case None => (None, s)
    case Some((u, during)) => (Some(u), FinishSend(during, kind, success))
  }

  /** A send clears exactly the selection it uploaded, and only when the
      upload succeeded; the other selection is never touched. */
  lemma SendOutcome(s: State, kind: Kind, conversation: ConversationId, success: bool)
    requires Selected(s, kind).Some?
    ensures var r := HandleSend(s, kind, Some(conversation), success);
      && r.0 == Some(Upload(kind, Selected(s, kind).value, conversation))
      && Selected(r.1, kind) == (if success then None else Selected(s, kind))
      && Selected(r.1, Other(kind)) == Selected(s, Other(kind))
      && !r.1.isLoading
  {
  }

  /** A failed send can be retried: it issues the same upload again. */
  lemma FailedSendRetries(s: State, kind: Kind, conversation: ConversationId)
    requires Selected(s, kind).Some? && !s.isLoading
    ensures var r := HandleSend(s, kind, Some(conversation), false);
      r.1 == s && HandleSend(r.1, kind, Some(conversation), false).0 == r.0
  {
  }

  /** A preview dialog: shown with the chosen file, open, and with the
      send button's loading flag. */
  datatype Dialog = Dialog(isOpen: bool, file: File, isLoading: bool)

  /** `{selectedImage && <MediaImageDialog isOpen={selectedImage !== null} ...>}`
      and its video twin. */
  function PreviewDialog(s: State, kind: Kind): (d: Option<Dialog>)
    ensures d.Some? <==> Selected(s, kind).Some?
    ensures d.Some? ==> d.value.isOpen && d.value.file == Selected(s, kind).value && d.value.isLoading == s.isLoading
  {
    match Selected(s, kind)
    case None => None
    case Some(f) => Some(Dialog(true, f, s.isLoading))
  }

  /** Closing a dialog (`onClose`) drops its selection and hides it. */
  function Close(s: State, kind: Kind): (s': State)
    ensures PreviewDialog(s', kind).None?
    ensures Selected(s', Other(kind)) == Selected(s, Other(kind))
  {
    WithSelected(s, kind, None)
  }

  /** Choosing a file shows its dialog; choosing another replaces it. */
  lemma ChooseShowsDialog(s: State, kind: Kind, first: File, second: File)
    ensures PreviewDialog(Choose(s, kind, [first]), kind).value.file == first
    ensures PreviewDialog(Choose(Choose(s, kind, [first]), kind, [second]), kind).value.file == second
  {
  }
}
