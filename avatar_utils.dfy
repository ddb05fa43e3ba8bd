/** The avatar validator: the same MIME-type whitelist as entry images and a 2 MB ceiling. */
module AvatarUtils {
  import opened Wrappers
  import opened Types
  import ImageUtils

  /** 2 MB in bytes. */
  const MaxFileSize: nat := 2 * 1024 * 1024
  const AllowedTypes: seq<string> := ["image/jpeg", "image/png", "image/gif", "image/webp"]

  const FormatError: string := "対応している画像形式: JPG, PNG, GIF, WEBP"
  const SizeError: string := "画像サイズは2MB以下にしてください"

  /** `validateAvatar`: the type first, then the size. */
  function ValidateAvatar(file: FileInfo): (r: FileCheck)
    ensures r.valid <==> file.mimeType in AllowedTypes && file.size <= MaxFileSize
    ensures r.valid <==> r.error.None?
    ensures file.mimeType !in AllowedTypes ==> r.error == Some(FormatError)
    ensures file.mimeType in AllowedTypes && file.size > MaxFileSize ==> r.error == Some(SizeError)
  {
    if file.mimeType !in AllowedTypes then FileCheck(false, Some(FormatError))
    else if file.size > MaxFileSize then FileCheck(false, Some(SizeError))
    else FileCheck(true, None)
  }

  /** The ceiling is inclusive: exactly 2,097,152 bytes passes, one more byte fails. */
  lemma SizeBoundary(mimeType: string)
    requires mimeType in AllowedTypes
    ensures ValidateAvatar(FileInfo(mimeType, 2097152)).valid
    ensures ValidateAvatar(FileInfo(mimeType, 2097153)).error == Some(SizeError)
  {
  }

  /**
   * Every avatar is also a valid entry image: the two whitelists are the same
   * and the avatar ceiling is the lower one. The converse fails for a file
   * between 2 MB and 5 MB.
   */
  lemma AvatarAcceptedImpliesImageAccepted(file: FileInfo)
    ensures ValidateAvatar(file).valid ==> ImageUtils.ValidateImage(file).valid
    ensures ValidateAvatar(file).error == Some(FormatError) <==> ImageUtils.ValidateImage(file).error == Some(ImageUtils.FormatError)
    ensures ImageUtils.ValidateImage(FileInfo("image/png", 3 * 1024 * 1024)).valid
    ensures !ValidateAvatar(FileInfo("image/png", 3 * 1024 * 1024)).valid
  {
    assert AllowedTypes == ImageUtils.AllowedTypes;
  }
}
