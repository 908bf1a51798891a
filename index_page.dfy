/** The texts of the notifications the page raises when an unlock call ends. */
module IndexMessages {
  import opened Toasts
  import opened JsStrings

  /** `${n} ${n === 1 ? 'file has' : 'files have'} been unlocked.` */
  function SuccessDescription(count: nat): (text: string)
    ensures |DecimalString(count)| < |text|
    ensures text[..|DecimalString(count)|] == DecimalString(count)
    ensures text[|DecimalString(count)|] == ' '
  {
    DecimalString(count) + CountPhrase(count)
  }

  /** The text after the count, singular for exactly one file. */
  function CountPhrase(count: nat): (phrase: string)
    ensures |phrase| > 0 && phrase[0] == ' '
  {
    if count == 1 then " file has been unlocked." else " files have been unlocked."
  }

  function SuccessToast(count: nat): Toast {
    Toast("Files unlocked successfully", SuccessDescription(count), Default)
  }

  /** `error.message || 'An unknown error occurred.'` */
  function FailureDescription(message: string): (d: string)
    ensures d != ""
    ensures message != "" ==> d == message
  {
    if message != "" then message else "An unknown error occurred."
  }

  function FailureToast(message: string): Toast {
    Toast("Error unlocking files", FailureDescription(message), Destructive)
  }

  /** The success text for one file is singular: "1 file has been unlocked." */
  lemma SuccessDescriptionSingular()
    ensures DecimalString(1) == "1"
    ensures SuccessDescription(1) == DecimalString(1) + " file has been unlocked."
  {
  }

  /** The success text for several files is plural and names the count: "3 files have been unlocked." */
  lemma SuccessDescriptionPlural()
    ensures DecimalString(3) == "3"
    ensures SuccessDescription(3) == DecimalString(3) + " files have been unlocked."
  {
  }

  /** Two texts that each start with digits followed by a space split at the same place. */
  lemma DigitPrefixUnique(d1: string, t1: string, d2: string, t2: string)
    requires IsDigits(d1) && IsDigits(d2)
    requires |t1| > 0 && |t2| > 0 && t1[0] == ' ' && t2[0] == ' '
    requires d1 + t1 == d2 + t2
    ensures d1 == d2
  {
    var k := if |d1| <= |d2| then |d1| else |d2|;
    var c1, c2 := (d1 + t1)[k], (d2 + t2)[k];
    assert (c1 == ' ') == (k == |d1|);
    assert (c2 == ' ') == (k == |d2|);
    assert d1 == (d1 + t1)[..|d1|];
  }

  /** Distinct counts give distinct success texts: the count can be read back from the text. */
  lemma SuccessDescriptionNamesCount(m: nat, n: nat)
    requires SuccessDescription(m) == SuccessDescription(n)
    ensures m == n
  {
    DigitPrefixUnique(DecimalString(m), CountPhrase(m), DecimalString(n), CountPhrase(n));
    DecimalRoundTrip(m);
    DecimalRoundTrip(n);
  }
}

/**
 * The page that owns the selection, the password, the processing flag and the
 * result. `handleSubmit` awaits the API call; it is split into `Submit`, which
 * runs up to the `await`, and `Complete`, which runs once the reply is in.
 */
module IndexPage {
  import opened Wrappers
  import opened Toasts
  import opened JsStrings
  import opened FileUtils
  import opened ApiService
  import opened IndexMessages

  const DownloadName := "unlocked_excel_files.zip"

  /** A save of the result that `handleDownload` triggers. */
  datatype Download = Download(blob: Blob, filename: string)

  /** The files and password an in-flight `handleSubmit` captured, which it passes to the API. */
  datatype Submission = Submission(files: seq<File>, password: string)

  /** How a submit attempt ends before the `await`. */
  datatype SubmitStart = NoFilesSelected | PasswordRequired | Started(submission: Submission)

  /** The page as the user sees it. */
  datatype Phase = Idle | Processing | Done(result: Blob)

  /** `!password.trim()`: the password is empty or all white space. */
  predicate IsBlank(password: string): (blank: bool)
    ensures blank <==> AllWhiteSpace(password)
  {
    TrimEmptyIffBlank(password);
    AllWhiteSpaceEach(password);
    Trim(password) == ""
  }

  const NoFilesToast := Toast("No files selected", "Please select at least one Excel file to unlock.", Destructive)
  const PasswordRequiredToast := Toast("Password required", "Please enter the password for your Excel files.", Destructive)

  /** The submit guards, in order: files first, then the password. */
  function SubmitGuard(files: seq<File>, password: string): (rejection: Option<Toast>)
    ensures files == [] ==> rejection == Some(NoFilesToast)
    ensures files != [] && IsBlank(password) ==> rejection == Some(PasswordRequiredToast)
    ensures rejection.None? <==> files != [] && !IsBlank(password)
  {
    if |files| == 0 then Some(NoFilesToast)
    else if IsBlank(password) then Some(PasswordRequiredToast)
    else None
  }

  /**
   * The guards pass exactly when there are files and the password holds a
   * character other than white space; the "Unlock Files" button is disabled
   * exactly when they would refuse.
   */
  lemma SubmitGuardPasses(files: seq<File>, password: string)
    ensures SubmitGuard(files, password).None?
      <==> files != [] && exists i :: 0 <= i < |password| && !IsWhiteSpace(password[i])
    ensures (|files| == 0 || IsBlank(password)) <==> SubmitGuard(files, password).Some?
  {
    TrimEmptyIffBlank(password);
  }

  /** The API's errors always carry a message, so the page never shows the unknown-error text for them. */
  lemma ApiErrorsShownVerbatim(reply: FetchReply)
    requires UnlockOutcome(reply).Failure?
    ensures FailureDescription(UnlockOutcome(reply).error) == UnlockOutcome(reply).error
  {
  }

  class UnlockForm {
    var files: seq<File>
    var password: string
    var isProcessing: bool
    var resultBlob: Option<Blob>
    /** The notifications raised so far, oldest first. */
    var toasts: seq<Toast>
    /** What the awaiting `handleSubmit` captured, while it awaits. */
    var pending: Option<Submission>

    /**
     * A call is in flight exactly while processing, it was started with at least
     * one file, and no result is held while processing.
     */
    ghost predicate Valid()
      reads this
    {
      && (isProcessing <==> pending.Some?)
      && (pending.Some? ==> pending.value.files != [])
      && (isProcessing ==> resultBlob.None?)
    }

    ghost function CurrentPhase(): Phase
      reads this
    {
      if isProcessing then Processing
      else if resultBlob.Some? then Done(resultBlob.value)
      else Idle
    }

    constructor ()
      ensures Valid()
      ensures files == [] && password == "" && !isProcessing && resultBlob.None?
      ensures toasts == [] && pending.None? && CurrentPhase() == Idle
    {
      files := [];
      password := "";
      isProcessing := false;
      resultBlob := None;
      toasts := [];
      pending := None;
    }

    /** `handleFileSelection`: a new selection replaces the old one and discards any result. */
    method HandleFileSelection(selectedFiles: seq<File>)
      requires Valid()
      modifies this
      ensures Valid()
      ensures files == selectedFiles && resultBlob.None?
      ensures password == old(password) && isProcessing == old(isProcessing)
      ensures toasts == old(toasts) && pending == old(pending)
      ensures !isProcessing ==> CurrentPhase() == Idle
    {
      files := selectedFiles;
      resultBlob := None;
    }

    /** `handlePasswordChange`: the password is stored as typed. */
    method HandlePasswordChange(value: string)
      requires Valid()
      modifies this
      ensures Valid()
      ensures password == value
      ensures files == old(files) && isProcessing == old(isProcessing) && resultBlob == old(resultBlob)
      ensures toasts == old(toasts) && pending == old(pending)
    {
      password := value;
    }

    /**
     * `handleSubmit` up to the `await`. The form is not rendered while processing,
     * so it is never submitted then. A failed guard raises its toast and changes
     * nothing else; otherwise processing starts, the old result is dropped, and
     * the current files and the untrimmed password go to the API.
     */
    method Submit() returns (start: SubmitStart)
      requires Valid() && !isProcessing
      modifies this
      ensures Valid()
      ensures files == old(files) && password == old(password)
      ensures match SubmitGuard(files, password)
        case Some(rejection) =>
          && start == (if files == [] then NoFilesSelected else PasswordRequired)
          && toasts == old(toasts) + [rejection]
          && !isProcessing && resultBlob == old(resultBlob) && pending.None?
        case None =>
          && start == Started(Submission(files, password))
          && toasts == old(toasts)
          && isProcessing && resultBlob.None? && pending == Some(start.submission)
          && CurrentPhase() == Processing
    {
      if |files| == 0 {
        toasts := toasts + [NoFilesToast];
        return NoFilesSelected;
      }
      var blank := IsBlank(password);
      if blank {
        assert SubmitGuard(files, password) == Some(PasswordRequiredToast);
        toasts := toasts + [PasswordRequiredToast];
        return PasswordRequired;
      }
      assert SubmitGuard(files, password) == None;
      isProcessing := true;
      resultBlob := None;
      pending := Some(Submission(files, password));
      start := Started(Submission(files, password));
    }

    /**
     * `handleSubmit` after the `await`, given the reply to its one request: the
     * request carries the captured files and password; success stores the body
     * and reports the count, failure clears the result and reports the message;
     * either way processing ends.
     */
    method Complete(reply: FetchReply) returns (request: Request, outcome: Result<Blob, string>)
      requires Valid() && isProcessing
      modifies this
      ensures Valid()
      ensures request == Request(UnlockEndpoint, "POST", Payload(old(pending).value.files, old(pending).value.password))
      ensures outcome == UnlockOutcome(reply)
      ensures !isProcessing && pending.None?
      ensures files == old(files) && password == old(password)
      ensures outcome.Success? ==>
        && resultBlob == Some(outcome.value) && CurrentPhase() == Done(outcome.value)
        && toasts == old(toasts) + [SuccessToast(|old(pending).value.files|)]
      ensures outcome.Failure? ==>
        && resultBlob.None? && CurrentPhase() == Idle
        && toasts == old(toasts) + [FailureToast(outcome.error)]
    {
      var submission := pending.value;
      request, outcome := UnlockExcelFiles(submission.files, submission.password, reply);
      if outcome.Success? {
        resultBlob := Some(outcome.value);
        toasts := toasts + [SuccessToast(|submission.files|)];
      } else {
        toasts := toasts + [FailureToast(outcome.error)];
        resultBlob := None;
      }
      isProcessing := false;
      pending := None;
    }

    /** `handleDownload`: saves the result under the fixed name, or does nothing without one. */
    method HandleDownload() returns (download: Option<Download>)
      ensures resultBlob.None? ==> download.None?
      ensures resultBlob.Some? ==> download == Some(Download(resultBlob.value, "unlocked_excel_files.zip"))
    {
      if resultBlob.Some? {
        download := Some(Download(resultBlob.value, DownloadName));
      } else {
        download := None;
      }
    }
  }
}
