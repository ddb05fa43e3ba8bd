/** The entry-image validator: a MIME-type whitelist and a 5 MB ceiling. */
module ImageUtils {
  import opened Wrappers
  import opened Types

  /** 5 MB in bytes. */
  const MaxFileSize: nat := 5 * 1024 * 1024
  const AllowedTypes: seq<string> := ["image/jpeg", "image/png", "image/gif", "image/webp"]

  const FormatError: string := "対応している画像形式: JPG, PNG, GIF, WEBP"
  const SizeError: string := "画像サイズは5MB以下にしてください"

  /**
   * `validateImage`: the type is checked before the size, so a file of the
   * wrong type gets the format error whatever its size.
   */
  function ValidateImage(file: FileInfo): (r: FileCheck)
    ensures r.valid <==> file.mimeType in AllowedTypes && file.size <= MaxFileSize
    ensures r.valid <==> r.error.None?
    ensures file.mimeType !in AllowedTypes ==> r.error == Some(FormatError)
    ensures file.mimeType in AllowedTypes && file.size > MaxFileSize ==> r.error == Some(SizeError)
  {
    if file.mimeType !in AllowedTypes then FileCheck(false, Some(FormatError))
    else if file.size > MaxFileSize then FileCheck(false, Some(SizeError))
    else FileCheck(true, None)
  }

  /** The ceiling is inclusive: exactly 5,242,880 bytes passes, one more byte fails. */
  lemma SizeBoundary(mimeType: string)
    requires mimeType in AllowedTypes
    ensures ValidateImage(FileInfo(mimeType, 5242880)).valid
    ensures ValidateImage(FileInfo(mimeType, 5242881)).error == Some(SizeError)
  {
  }

  /** The size never rescues a disallowed type, and a disallowed type never reports the size error. */
  lemma TypeCheckFirst(file: FileInfo)
    requires file.mimeType !in AllowedTypes
    ensures ValidateImage(file) == ValidateImage(FileInfo(file.mimeType, 0))
    ensures ValidateImage(file).error != Some(SizeError)
  {
  }
}
