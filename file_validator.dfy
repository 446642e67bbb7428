/** `FileValidator` of features/validate_uploaded_file.py: a size limit checked
    without disturbing the read position of the file. */
module UploadedFileValidation {
  import opened Base
  import opened Streams

  const MaximumMessage: string := "Maximum file size must be greater than 0"

  /** The message `validate_size` raises for a file over the limit. */
  function OversizeMessage(maxSizeBytes: nat): string {
    "File size exceeds maximum limit of " + NatToString(maxSizeBytes) + " bytes"
  }

  /** The verdict of `validate_size` on a buffer of `size` bytes: True, or the
      `ValueError` it raises. */
  function SizeVerdict(size: nat, maxSizeBytes: nat): (r: Result<bool, string>)
    ensures r.Ok? <==> size <= maxSizeBytes
    ensures r.Ok? ==> r.value
    ensures r.Err? ==> r.error == OversizeMessage(maxSizeBytes)
  {
    if size > maxSizeBytes then Err(OversizeMessage(maxSizeBytes)) else Ok(true)
  }

  /** The limit itself is accepted; one byte more is not. */
  lemma SizeBoundary(maxSizeBytes: nat)
    ensures SizeVerdict(maxSizeBytes, maxSizeBytes) == Ok(true)
    ensures SizeVerdict(maxSizeBytes + 1, maxSizeBytes).Err?
  {
  }

  class FileValidator {
    const maxSizeBytes: nat

    /** The constructor proper, reached only with a positive limit. */
    constructor (maxSizeBytes: nat)
      requires maxSizeBytes > 0
      ensures this.maxSizeBytes == maxSizeBytes
    {
      this.maxSizeBytes := maxSizeBytes;
    }

    /** `FileValidator(max_size_bytes)`: a limit of 0 or less raises a `ValueError`. */
    static method Create(maxSizeBytes: int) returns (r: Result<FileValidator, string>)
      ensures r.Err? <==> maxSizeBytes <= 0
      ensures r.Err? ==> r.error == MaximumMessage
      ensures r.Ok? ==> r.value.maxSizeBytes == maxSizeBytes
    {
      if maxSizeBytes <= 0 {
        return Err(MaximumMessage);
      }
      var v := new FileValidator(maxSizeBytes);
      return Ok(v);
    }

    /** `get_file_size`: the length of the whole buffer, whatever the position, which is
        restored afterwards. */
    static method GetFileSize(file: ByteStream) returns (size: nat)
      modifies file
      ensures size == |file.data|
      ensures file.pos == old(file.pos) && file.data == old(file.data) && file.name == old(file.name)
    {
      var current := file.Tell();
      file.SeekEnd();
      size := file.Tell();
      file.Seek(current);
    }

    /** `validate_size`. */
    method ValidateSize(file: ByteStream) returns (r: Result<bool, string>)
      modifies file
      ensures r == SizeVerdict(|file.data|, maxSizeBytes)
      ensures file.pos == old(file.pos) && file.data == old(file.data) && file.name == old(file.name)
    {
      var size := GetFileSize(file);
      if size > maxSizeBytes {
        return Err(OversizeMessage(maxSizeBytes));
      }
      return Ok(true);
    }
  }
}
