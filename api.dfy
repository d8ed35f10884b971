/** `getImageUrl`, the one pure helper of the API service: image paths from the API are
    relative to the image host unless they are already absolute. */
module Api {
  import opened Text

  const ImageBaseUrl: string := "https://im-staging.haat.delivery/"

  /** An empty path gives the empty string, a path starting with `http` is kept, and any
      other path is resolved against the image host. */
  function GetImageUrl(imagePath: string): (url: string)
    ensures imagePath == [] ==> url == []
    ensures StartsWith(imagePath, "http") ==> url == imagePath
  {
    if imagePath == [] then []
    else if StartsWith(imagePath, "http") then imagePath
    else ImageBaseUrl + imagePath
  }

  /** The image host's address is itself absolute. */
  lemma BaseIsAbsolute(path: string)
    ensures StartsWith(ImageBaseUrl + path, "http")
  {
    assert (ImageBaseUrl + path)[..4] == ImageBaseUrl[..4];
  }

  /** The result is empty exactly when the path is; a non-empty path always yields an
      absolute URL that ends with the path, and a relative one is prefixed with the
      image host. */
  lemma ImageUrlShape(imagePath: string)
    ensures GetImageUrl(imagePath) == [] <==> imagePath == []
    ensures imagePath != [] ==> StartsWith(GetImageUrl(imagePath), "http")
    ensures var url := GetImageUrl(imagePath);
            |imagePath| <= |url| && url[|url| - |imagePath|..] == imagePath
    ensures imagePath != [] && !StartsWith(imagePath, "http") ==>
      var url := GetImageUrl(imagePath);
      StartsWith(url, ImageBaseUrl) && url[|ImageBaseUrl|..] == imagePath
  {
    if imagePath != [] && !StartsWith(imagePath, "http") {
      BaseIsAbsolute(imagePath);
      var url := ImageBaseUrl + imagePath;
      assert url[..|ImageBaseUrl|] == ImageBaseUrl;
      assert url[|ImageBaseUrl|..] == imagePath;
    }
  }

  /** Resolving an already resolved URL changes nothing. */
  lemma GetImageUrlIdempotent(imagePath: string)
    ensures GetImageUrl(GetImageUrl(imagePath)) == GetImageUrl(imagePath)
  {
    if imagePath != [] && !StartsWith(imagePath, "http") {
      BaseIsAbsolute(imagePath);
    }
  }
}
