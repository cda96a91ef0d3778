/**
 * The upload dialog's state machine: the chosen files (at most ten), the
 * busy flag while a request is out, the error line and the last response.
 * Choosing or dropping files replaces the selection; a submit sends the
 * selection and records either the response or an error message.
 */
module UploadModal {
  import opened Common

  const MaxFiles: nat := 10
  const TooManyFilesMessage: string := "Maximum 10 images allowed per upload"
  const DefaultFailureMessage: string := "Failed to process invoices"

  datatype SelectedFile = SelectedFile(name: string, mimeType: string, size: nat)

  /** A saved invoice as the dialog lists it. */
  datatype SavedInvoice = SavedInvoice(invoiceNumber: string, vendorName: string)

  datatype UploadResponse = UploadResponse(savedInvoices: seq<SavedInvoice>, duplicateInvoiceNumbers: seq<string>)

  /** How the request ended: a response, or a thrown value (an `Error` carries a message). */
  datatype Outcome = Responded(response: UploadResponse) | Failed(message: Option<string>)

  datatype ModalState = ModalState(files: seq<SelectedFile>, loading: bool, error: Option<string>, result: Option<UploadResponse>)

  const Initial: ModalState := ModalState([], false, None, None)

  /** The selection never exceeds the per-upload limit. */
  predicate Valid(st: ModalState) {
    |st.files| <= MaxFiles
  }

  /** A new selection: replaces the files when within the limit, otherwise only sets the error. */
  function ChangeFiles(st: ModalState, chosen: Option<seq<SelectedFile>>): (r: ModalState)
    ensures chosen.None? ==> r == st
    ensures chosen.Some? && |chosen.value| > MaxFiles ==>
      r == st.(error := Some(TooManyFilesMessage))
    ensures chosen.Some? && |chosen.value| <= MaxFiles ==>
      r.files == chosen.value && r.error.None? && r.result.None? && r.loading == st.loading
  {
    match chosen
    case None => st
    case Some(files) =>
      if |files| > MaxFiles then st.(error := Some(TooManyFilesMessage))
      else st.(files := files, error := None, result := None)
  }

  predicate IsAcceptedImage(f: SelectedFile) {
    f.mimeType == "image/jpeg" || f.mimeType == "image/png"
  }

  function AcceptedImages(files: seq<SelectedFile>): (r: seq<SelectedFile>)
    ensures forall f :: f in r <==> f in files && IsAcceptedImage(f)
    ensures |r| <= |files|
    decreases |files|
  {
    if |files| == 0 then []
    else if IsAcceptedImage(files[0]) then [files[0]] + AcceptedImages(files[1..])
    else AcceptedImages(files[1..])
  }

  /** Keeping the accepted images preserves their order: it distributes over concatenation. */
  lemma {:induction false} AcceptedImagesDistributes(a: seq<SelectedFile>, b: seq<SelectedFile>)
    ensures AcceptedImages(a + b) == AcceptedImages(a) + AcceptedImages(b)
    decreases |a|
  {
    if |a| == 0 {
      assert a + b == b;
    } else {
      assert (a + b)[1..] == a[1..] + b;
      AcceptedImagesDistributes(a[1..], b);
    }
  }

  /** A drop: only JPEG and PNG files count; too many sets the error; none changes nothing. */
  function Drop(st: ModalState, dropped: seq<SelectedFile>): (r: ModalState)
    ensures |AcceptedImages(dropped)| > MaxFiles ==> r == st.(error := Some(TooManyFilesMessage))
    ensures |AcceptedImages(dropped)| == 0 ==> r == st
    ensures 0 < |AcceptedImages(dropped)| <= MaxFiles ==>
      r.files == AcceptedImages(dropped) && r.error.None? && r.result.None?
    ensures forall f :: f in r.files ==> f in st.files || (f in dropped && IsAcceptedImage(f))
  {
    var images := AcceptedImages(dropped);
    if |images| > MaxFiles then st.(error := Some(TooManyFilesMessage))
    else if |images| > 0 then st.(files := images, error := None, result := None)
    else st
  }

  /** `files.filter((_, i) => i !== index)`. */
  function RemoveAt(files: seq<SelectedFile>, index: int): (r: seq<SelectedFile>)
    ensures !(0 <= index < |files|) ==> r == files
    ensures 0 <= index < |files| ==> |r| == |files| - 1
    ensures 0 <= index < |files| ==> forall j :: 0 <= j < index ==> r[j] == files[j]
    ensures 0 <= index < |files| ==> forall j :: index <= j < |r| ==> r[j] == files[j + 1]
  {
    if 0 <= index < |files| then files[..index] + files[index + 1..] else files
  }

  /** Removing a file takes exactly that one occurrence out of the selection. */
  lemma RemoveAtIsMultisetRemoval(files: seq<SelectedFile>, index: int)
    requires 0 <= index < |files|
    ensures multiset(RemoveAt(files, index)) + multiset{files[index]} == multiset(files)
  {
    assert files == files[..index] + [files[index]] + files[index + 1..];
  }

  function RemoveFile(st: ModalState, index: int): (r: ModalState)
    ensures r.files == RemoveAt(st.files, index)
    ensures r.loading == st.loading && r.error == st.error && r.result == st.result
  {
    st.(files := RemoveAt(st.files, index))
  }

  /** A submit: with no files nothing happens and nothing is sent; otherwise the dialog is busy and clear. */
  function StartSubmit(st: ModalState): (r: (ModalState, Option<seq<SelectedFile>>))
    ensures |st.files| == 0 ==> r == (st, None)
    ensures |st.files| > 0 ==> r.1 == Some(st.files)
    ensures |st.files| > 0 ==> r.0 == ModalState(st.files, true, None, None)
  {
    if |st.files| == 0 then (st, None)
    else (st.(loading := true, error := None, result := None), Some(st.files))
  }

  /**
   * The request settled. The second component says whether the page's
   * success callback ran: exactly when at least one invoice was saved.
   */
  function FinishSubmit(st: ModalState, outcome: Outcome): (r: (ModalState, bool))
    ensures !r.0.loading && r.0.files == st.files
    ensures r.1 <==> outcome.Responded? && |outcome.response.savedInvoices| > 0
    ensures outcome.Responded? ==> r.0.result == Some(outcome.response) && r.0.error == st.error
    ensures outcome.Failed? && outcome.message.Some? ==> r.0.error == outcome.message
    ensures outcome == Failed(None) ==> r.0.error == Some(DefaultFailureMessage)
    ensures outcome.Failed? ==> r.0.result == st.result
  {
    match outcome
    case Responded(response) =>
      (st.(result := Some(response), loading := false), |response.savedInvoices| > 0)
    case Failed(message) =>
      (st.(error := Some(message.GetOr(DefaultFailureMessage)), loading := false), false)
  }

  /** Closing asks the page to close the dialog unless a request is out. */
  function Close(st: ModalState): (closes: bool)
    ensures closes <==> !st.loading
  {
    !st.loading
  }

  /** Every transition keeps the selection within the limit. */
  lemma TransitionsKeepValid(st: ModalState, chosen: Option<seq<SelectedFile>>, dropped: seq<SelectedFile>, index: int, outcome: Outcome)
    requires Valid(st)
    ensures Valid(ChangeFiles(st, chosen))
    ensures Valid(Drop(st, dropped))
    ensures Valid(RemoveFile(st, index))
    ensures Valid(StartSubmit(st).0)
    ensures Valid(FinishSubmit(st, outcome).0)
  {
  }

  /** A full successful round: the request carries the selection, and the dialog ends idle with the response. */
  lemma SubmitRound(st: ModalState, response: UploadResponse)
    requires |st.files| > 0
    ensures var (busy, sent) := StartSubmit(st);
      var (done, notified) := FinishSubmit(busy, Responded(response));
      sent == Some(st.files) && busy.loading && !Close(busy) &&
      done == ModalState(st.files, false, None, Some(response)) && Close(done) &&
      (notified <==> |response.savedInvoices| > 0)
  {
  }

  /** The initial dialog is empty, valid and idle; a submit from it sends nothing. */
  lemma InitialIsIdle()
    ensures Valid(Initial) && Close(Initial) && StartSubmit(Initial) == (Initial, None)
  {
  }
}
