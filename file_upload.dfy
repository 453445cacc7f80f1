/**
 * The resume picker (Frontend/src/components/FileUpload.tsx): the MIME allowlist and the
 * select, drop and remove rules for the chosen file. The parent's `selectedFile` state and
 * the file input's `value` are the two fields of `FileSelection`.
 */
module FileUpload {
  import opened Common

  /** What the browser's File object tells about a chosen file. */
  datatype FileInfo = FileInfo(name: string, mimeType: string, size: nat)

  const PdfType := "application/pdf"
  const DocType := "application/msword"
  const DocxType := "application/vnd.openxmlformats-officedocument.wordprocessingml.document"

  const AllowedTypes: seq<string> := [PdfType, DocType, DocxType]

  /** `isValidFileType`: the file's MIME type is on the allowlist. */
  function IsValidFileType(file: FileInfo): (ok: bool)
    ensures ok <==> file.mimeType == PdfType || file.mimeType == DocType || file.mimeType == DocxType
  {
    file.mimeType in AllowedTypes
  }

  /** The first file of a file list, if there is one. */
  function FirstFile(files: seq<FileInfo>): (f: Option<FileInfo>)
    ensures f.Some? <==> |files| > 0
    ensures f.Some? ==> f.value == files[0]
  {
    if |files| == 0 then None else Some(files[0])
  }

  class FileSelection {
    /** The file passed to `onFileSelect` last, held by the parent as `selectedFile`. */
    var selected: Option<FileInfo>
    /** The value of the hidden file input. */
    var inputValue: string

    constructor ()
      ensures selected.None? && inputValue == ""
    {
      selected := None;
      inputValue := "";
    }

    /** `handleFileChange`: the first chosen file, or none, is passed on with no type check. */
    method HandleFileChange(files: seq<FileInfo>)
      modifies this
      ensures selected == FirstFile(files)
      ensures inputValue == old(inputValue)
    {
      selected := FirstFile(files);
    }

    /** `handleDrop`: the selection changes only for a dropped first file of an allowed type. */
    method HandleDrop(files: seq<FileInfo>)
      modifies this
      ensures |files| > 0 && IsValidFileType(files[0]) ==> selected == Some(files[0])
      ensures !(|files| > 0 && IsValidFileType(files[0])) ==> selected == old(selected)
      ensures inputValue == old(inputValue)
    {
      var file := FirstFile(files);
      if file.Some? && IsValidFileType(file.value) {
        selected := file;
      }
    }

    /** `removeFile`: no file is selected and the input is cleared. */
    method RemoveFile()
      modifies this
      ensures selected.None? && inputValue == ""
    {
      selected := None;
      inputValue := "";
    }
  }
}
