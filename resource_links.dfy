/**
 * `build_resource_link`: from a resource's download URL to its page on data.gouv.fr. The
 * resource id is the last `/`-separated segment of the URL; the owning dataset's id comes
 * from the data.gouv.fr API, the parameter `lookup` here (the GET of the API URL and the
 * `dataset_id` member of its JSON answer, `None` when any of that fails).
 */
module ResourceLinks {
  import opened Wrappers

  const DatagouvUrl: string := "https://www.data.gouv.fr/"

  /** The data.gouv.fr API: from a request URL to the `dataset_id` it answers, if any. */
  type Lookup = string -> Option<string>

  /** `s.split('/')[-1]`: the text after the last `/`, or all of `s` when there is none. */
  function LastSegment(s: string): (r: string)
    ensures '/' !in r
    ensures |r| <= |s| && r == s[|s| - |r|..]
    ensures |r| == |s| || s[|s| - |r| - 1] == '/'
  {
    if s == [] || s[|s| - 1] == '/' then []
    else LastSegment(s[..|s| - 1]) + [s[|s| - 1]]
  }

  /** The three properties of `LastSegment` determine it: no other suffix has them. */
  lemma LastSegmentUnique(s: string, r: string)
    requires '/' !in r
    requires |r| <= |s| && r == s[|s| - |r|..]
    requires |r| == |s| || s[|s| - |r| - 1] == '/'
    ensures r == LastSegment(s)
  {
  }

  /** A segment that follows a `/` is the last segment. */
  lemma {:induction false} LastSegmentAfterSlash(a: string, r: string)
    requires |a| > 0 && a[|a| - 1] == '/'
    requires '/' !in r
    ensures LastSegment(a + r) == r
  {
    if r == [] {
      assert a + r == a;
    } else {
      assert (a + r)[..|a + r| - 1] == a + r[..|r| - 1];
      LastSegmentAfterSlash(a, r[..|r| - 1]);
      assert r[..|r| - 1] + [r[|r| - 1]] == r;
    }
  }

  /** The API URL asked about a resource. */
  function ResourceApiUrl(resourceId: string): string
  {
    DatagouvUrl + "api/2/datasets/resources/" + resourceId + "/"
  }

  /** The page of a resource within its dataset's page. */
  function DeepLink(datasetId: string, resourceId: string): string
  {
    DatagouvUrl + "fr/datasets/" + datasetId + "/#/resources/" + resourceId
  }

  /**
   * `build_resource_link(resource_download_link)`. A missing URL (`None.split` raises) and a
   * failed lookup both end in the `except` branch, which returns `None`.
   */
  function BuildResourceLink(downloadUrl: Option<string>, lookup: Lookup): (r: Option<string>)
    ensures r.Some? <==>
      downloadUrl.Some? && lookup(ResourceApiUrl(LastSegment(downloadUrl.value))).Some?
    ensures r.Some? ==>
      r.value == DeepLink(lookup(ResourceApiUrl(LastSegment(downloadUrl.value))).value,
                          LastSegment(downloadUrl.value))
  {
    match downloadUrl
    case None => None
    case Some(url) =>
      var resourceId := LastSegment(url);
      match lookup(ResourceApiUrl(resourceId))
      case None => None
      case Some(datasetId) => Some(DeepLink(datasetId, resourceId))
  }

  /**
   * A built link names the same resource as the download URL it came from: its own last
   * segment is the resource id.
   */
  lemma LinkNamesResource(downloadUrl: Option<string>, lookup: Lookup)
    requires BuildResourceLink(downloadUrl, lookup).Some?
    ensures LastSegment(BuildResourceLink(downloadUrl, lookup).value)
         == LastSegment(downloadUrl.value)
  {
    var rid := LastSegment(downloadUrl.value);
    var did := lookup(ResourceApiUrl(rid)).value;
    var a := DatagouvUrl + "fr/datasets/" + did + "/#/resources/";
    assert DeepLink(did, rid) == a + rid;
    LastSegmentAfterSlash(a, rid);
  }
}
