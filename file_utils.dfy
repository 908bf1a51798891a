/** File classification and validation used when files enter the selection. */
module FileUtils {
  import opened Wrappers
  import opened JsStrings

  /** A browser File as the intake sees it: its name, byte size and declared MIME type. */
  datatype File = File(name: string, size: nat, mimeType: string)

  const MimeXls := "application/vnd.ms-excel"
  const MimeXlsx := "application/vnd.openxmlformats-officedocument.spreadsheetml.sheet"
  const MimeXlsm := "application/vnd.ms-excel.sheet.macroEnabled.12"
  const MimeXlsb := "application/vnd.ms-excel.sheet.binary.macroEnabled.12"

  /** The allow-list of spreadsheet MIME types. */
  const ExcelMimeTypes: seq<string> := [MimeXls, MimeXlsx, MimeXlsm, MimeXlsb]

  /** The per-file size ceiling, 20 MiB. */
  const MaxFileSize: nat := 20 * 1024 * 1024

  /** A file is a spreadsheet exactly when its declared type is, character for character, one of the four. */
  function IsExcelFile(f: File): (b: bool)
    ensures b <==> f.mimeType == MimeXls || f.mimeType == MimeXlsx
                   || f.mimeType == MimeXlsm || f.mimeType == MimeXlsb
  {
    f.mimeType in ExcelMimeTypes
  }

  /** Matching is exact: a shortened type, an upper-case variant or a parameterised type is refused. */
  lemma IsExcelFileIsExact(name: string, size: nat)
    ensures !IsExcelFile(File(name, size, "application/vnd.ms-excel.sheet"))
    ensures !IsExcelFile(File(name, size, "Application/vnd.ms-excel"))
    ensures !IsExcelFile(File(name, size, "application/vnd.ms-excel; charset=binary"))
    ensures !IsExcelFile(File(name, size, ""))
  {
  }

  /** A verdict and, for a rejection, the reason shown to the user. */
  datatype Validation = Validation(valid: bool, message: Option<string>)

  function NotExcelMessage(name: string): string {
    name + " is not an Excel file. Only .xlsx and .xls files are allowed."
  }

  function TooLargeMessage(name: string): string {
    name + " exceeds the maximum file size of 20MB."
  }

  /**
   * Validates one file: the type is checked first, then the size; a valid
   * verdict carries no message and every rejection carries its reason.
   */
  function ValidateExcelFile(f: File): (v: Validation)
    ensures v.valid <==> IsExcelFile(f) && f.size <= MaxFileSize
    ensures v.valid <==> v.message.None?
    ensures !IsExcelFile(f) ==> v.message == Some(NotExcelMessage(f.name))
    ensures IsExcelFile(f) && f.size > MaxFileSize ==> v.message == Some(TooLargeMessage(f.name))
  {
    if !IsExcelFile(f) then
      Validation(false, Some(NotExcelMessage(f.name)))
    else if f.size > MaxFileSize then
      Validation(false, Some(TooLargeMessage(f.name)))
    else
      Validation(true, None)
  }

  /** The ceiling is inclusive: a spreadsheet of exactly 20971520 bytes passes, one byte more fails. */
  lemma SizeLimitBoundary(name: string, mimeType: string)
    requires mimeType in ExcelMimeTypes
    ensures ValidateExcelFile(File(name, 20971520, mimeType)).valid
    ensures ValidateExcelFile(File(name, 20971521, mimeType)).message
              == Some(name + " exceeds the maximum file size of 20MB.")
  {
  }

  /**
   * Every rejection message starts with the file's name, and the two reasons
   * read differently, so the user can tell which check a file failed.
   */
  lemma RejectionMessageIdentifiesFileAndReason(f: File)
    requires !ValidateExcelFile(f).valid
    ensures var m := ValidateExcelFile(f).message.value;
      |m| > |f.name| && m[..|f.name|] == f.name
    ensures NotExcelMessage(f.name) != TooLargeMessage(f.name)
  {
    var n := |f.name|;
    var notExcel := " is not an Excel file. Only .xlsx and .xls files are allowed.";
    var tooLarge := " exceeds the maximum file size of 20MB.";
    assert |NotExcelMessage(f.name)| == n + |notExcel| != n + |tooLarge| == |TooLargeMessage(f.name)|;
  }

  /**
   * `filename.slice((filename.lastIndexOf('.') - 1 >>> 0) + 2).toLowerCase()`:
   * the shifted index wraps to 2^32 - 2 or 2^32 - 1 when there is no dot or only
   * a leading one, which moves the slice past the end of the name.
   */
  function GetFileExtension(filename: string): (ext: string)
    ensures |ext| <= |filename|
    ensures ext == ToLowerCase(filename[|filename| - |ext|..])
    ensures forall i :: 0 <= i < |ext| ==> !IsUpper(ext[i])
  {
    ToLowerCase(Slice(filename, ToUint32(LastIndexOf(filename, '.') - 1) + 2))
  }

  /**
   * The longest name for which the wrapped index (2^32 - 2 or 2^32 - 1, plus 2)
   * still lands at or past the end. Every JavaScript engine caps string length
   * well below it, so the bound excludes no name a browser can hold.
   */
  const WrapBound: nat := TwoTo32

  /** A name without a dot has no extension. */
  lemma ExtensionWithoutDot(filename: string)
    requires |filename| <= WrapBound
    requires '.' !in filename
    ensures GetFileExtension(filename) == ""
  {
  }

  /** A name whose only dot is its first character (".xlsx") has no extension. */
  lemma ExtensionOfDotFile(filename: string)
    requires |filename| <= WrapBound
    requires |filename| > 0 && filename[0] == '.' && '.' !in filename[1..]
    ensures GetFileExtension(filename) == ""
  {
  }

  /**
   * Otherwise the extension is the lower-cased text after the last dot, and it
   * holds no dot itself.
   */
  lemma ExtensionAfterLastDot(filename: string, k: nat)
    requires |filename| <= WrapBound
    requires 1 <= k < |filename| && filename[k] == '.' && '.' !in filename[k + 1..]
    ensures GetFileExtension(filename) == ToLowerCase(filename[k + 1..])
    ensures '.' !in GetFileExtension(filename)
  {
    var r := LastIndexOf(filename, '.');
    assert r == k;
    assert ToUint32(r - 1) + 2 == k + 1;
    ToLowerCaseKeepsNonLetter(filename[k + 1..], '.');
  }

  /** For instance the extension of "Q3.Report.XLS" is "xls". */
  lemma ExtensionExample()
    ensures GetFileExtension("Q3.Report.XLS") == "xls"
  {
  }
}
