/** The image manifest: the pure part of `get_image_links`. */
module Manifest {

  /** The at-home server's answer: a base URL, the chapter hash and the page file fragments. */
  datatype ManifestResponse = ManifestResponse(
    status: int,
    baseUrl: string,
    hash: string,
    images: seq<string>)

  /** Everything an image URL holds before its fragment: `base + "/data/" + hash + "/"`. */
  function UrlPrefix(baseUrl: string, hash: string): string {
    baseUrl + "/data/" + hash + "/"
  }

  /** The URL of one page: `f"{base_url}/data/{chapter_hash}/{img}"`. */
  function ImageUrl(baseUrl: string, hash: string, img: string): (url: string)
    ensures |url| == |UrlPrefix(baseUrl, hash)| + |img|
    ensures url[..|UrlPrefix(baseUrl, hash)|] == UrlPrefix(baseUrl, hash)
    ensures url[|UrlPrefix(baseUrl, hash)|..] == img
  {
    UrlPrefix(baseUrl, hash) + img
  }

  /** The URL list of a chapter, one URL per fragment, in fragment order. */
  function ImageLinks(baseUrl: string, hash: string, images: seq<string>): (urls: seq<string>)
    ensures |urls| == |images|
    ensures forall k :: 0 <= k < |images| ==> urls[k] == ImageUrl(baseUrl, hash, images[k])
  {
    if |images| == 0 then []
    else ImageLinks(baseUrl, hash, images[..|images| - 1]) + [ImageUrl(baseUrl, hash, images[|images| - 1])]
  }

  /** The fragment of every URL can be read back from it: the list loses nothing. */
  lemma FragmentsRecoverable(baseUrl: string, hash: string, images: seq<string>)
    ensures var urls := ImageLinks(baseUrl, hash, images);
            forall k :: 0 <= k < |images| ==> urls[k][|UrlPrefix(baseUrl, hash)|..] == images[k]
  {
  }

  /** Distinct fragments of one chapter give distinct URLs. */
  lemma ImageUrlInjective(baseUrl: string, hash: string, a: string, b: string)
    ensures ImageUrl(baseUrl, hash, a) == ImageUrl(baseUrl, hash, b) <==> a == b
  {
    if ImageUrl(baseUrl, hash, a) == ImageUrl(baseUrl, hash, b) {
      var n := |UrlPrefix(baseUrl, hash)|;
      assert a == ImageUrl(baseUrl, hash, a)[n..];
    }
  }

  /** `get_image_links`: no URLs on a non-200 answer, otherwise one URL per fragment. */
  function GetImageLinks(resp: ManifestResponse): (urls: seq<string>)
    ensures resp.status != 200 ==> urls == []
    ensures resp.status == 200 ==> |urls| == |resp.images|
    ensures resp.status == 200 ==> forall k :: 0 <= k < |urls| ==>
              urls[k] == ImageUrl(resp.baseUrl, resp.hash, resp.images[k])
    ensures urls == [] <==> resp.status != 200 || resp.images == []
  {
    if resp.status != 200 then [] else ImageLinks(resp.baseUrl, resp.hash, resp.images)
  }
}
