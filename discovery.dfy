/**
 * Discovery of account and region identifiers (`list_accounts`,
 * `list_regions`): each `CommonPrefixes` entry of a delimited object
 * listing becomes one identifier, with the listed prefix and every `/`
 * removed from it.
 */
module Discovery {
  import opened Wrappers
  import opened PyStr
  import opened Statements

  /**
   * The object store as the partitioner sees it: for a bucket and a prefix,
   * the `Prefix` value of each `CommonPrefixes` entry of
   * `list_objects(Bucket=bucket, Prefix=prefix, Delimiter="/")`, in the
   * order returned, or `None` when the response has no `CommonPrefixes` key.
   */
  type Listing = (string, string) -> Option<seq<string>>

  /** The ways a run stops before registering anything. */
  datatype Error =
    | MissingCommonPrefixes(prefix: string)  // iterating over `None` raises `TypeError`
    | NoAccounts                             // `accounts[0]` raises `IndexError`

  /** `entry.replace(strip, "").replace("/", "")`. */
  function ExtractId(entry: string, strip: string): string
  {
    RemoveAll(RemoveAll(entry, strip), "/")
  }

  /** The identifiers of a listing, one per entry, in listing order. */
  function Identifiers(entries: seq<string>, strip: string): seq<string>
  {
    seq(|entries|, i requires 0 <= i < |entries| => ExtractId(entries[i], strip))
  }

  /** The `append` loop shared by `list_accounts` and `list_regions`. */
  method CollectIdentifiers(entries: seq<string>, strip: string) returns (ids: seq<string>)
    ensures |ids| == |entries|
    ensures forall i :: 0 <= i < |entries| ==> ids[i] == ExtractId(entries[i], strip)
  {
    ids := [];
    for i := 0 to |entries|
      invariant |ids| == i
      invariant forall k :: 0 <= k < i ==> ids[k] == ExtractId(entries[k], strip)
    {
      ids := ids + [ExtractId(entries[i], strip)];
    }
  }

  /** `list_accounts`: the identifiers under `bucketPrefix`, or an error when the listing has no `CommonPrefixes`. */
  method ListAccounts(listing: Listing, bucketName: string, bucketPrefix: string)
    returns (r: Result<seq<string>, Error>)
    ensures listing(bucketName, bucketPrefix).None? ==> r == Err(MissingCommonPrefixes(bucketPrefix))
    ensures listing(bucketName, bucketPrefix).Some? ==>
      r == Ok(Identifiers(listing(bucketName, bucketPrefix).value, bucketPrefix))
  {
    var response := listing(bucketName, bucketPrefix);
    if response.None? {
      return Err(MissingCommonPrefixes(bucketPrefix));
    }
    var accounts := CollectIdentifiers(response.value, bucketPrefix);
    assert accounts == Identifiers(response.value, bucketPrefix);
    return Ok(accounts);
  }

  /**
   * `list_regions`: the identifiers under the template with `accountId`
   * filled in, stripped of that same formatted prefix.
   */
  method ListRegions(listing: Listing, bucketName: string, bucketPrefix: string, accountId: string)
    returns (r: Result<seq<string>, Error>)
    ensures var prefix := FormatAccount(bucketPrefix, accountId);
      && (listing(bucketName, prefix).None? ==> r == Err(MissingCommonPrefixes(prefix)))
      && (listing(bucketName, prefix).Some? ==> r == Ok(Identifiers(listing(bucketName, prefix).value, prefix)))
  {
    var prefix := FormatAccount(bucketPrefix, accountId);
    var response := listing(bucketName, prefix);
    if response.None? {
      return Err(MissingCommonPrefixes(prefix));
    }
    var regions := CollectIdentifiers(response.value, prefix);
    assert regions == Identifiers(response.value, prefix);
    return Ok(regions);
  }

  /**
   * No identifier holds a `/`; so when the stripped prefix holds one, no
   * identifier contains the prefix either.
   */
  lemma ExtractIdClean(entry: string, strip: string)
    ensures '/' !in ExtractId(entry, strip)
    ensures '/' in strip ==> !Occurs(strip, ExtractId(entry, strip))
  {
    ReplaceCharGone(RemoveAll(entry, strip), '/', []);
    if '/' in strip {
      AbsentCharExcludes(strip, ExtractId(entry, strip), '/');
    }
  }

  /** `ExtractIdClean` for every identifier of a listing. */
  lemma IdentifiersClean(entries: seq<string>, strip: string)
    ensures forall i :: 0 <= i < |entries| ==> '/' !in Identifiers(entries, strip)[i]
    ensures '/' in strip ==> forall i :: 0 <= i < |entries| ==> !Occurs(strip, Identifiers(entries, strip)[i])
  {
    forall i | 0 <= i < |entries|
      ensures '/' !in Identifiers(entries, strip)[i]
      ensures '/' in strip ==> !Occurs(strip, Identifiers(entries, strip)[i])
    {
      ExtractIdClean(entries[i], strip);
    }
  }

  /**
   * An entry of the shape the listing produces, the prefix followed by one
   * `/`-free segment and the delimiter, gives back the segment, provided
   * the prefix does not occur again inside `segment + "/"`.
   */
  lemma ExtractIdRecoversSegment(prefix: string, segment: string)
    requires '/' !in segment
    requires prefix == [] || !Occurs(prefix, segment + "/")
    ensures ExtractId(prefix + segment + "/", prefix) == segment
  {
    var tail := segment + "/";
    assert prefix + segment + "/" == prefix + tail;
    if prefix != [] {
      ReplaceAtMatch(tail, prefix, []);
      ReplaceAbsent(tail, prefix, []);
    }
    assert RemoveAll(prefix + segment + "/", prefix) == tail;
    ReplaceCharConcat(segment, "/", '/', []);
    AbsentCharExcludes("/", segment, '/');
    ReplaceAbsent(segment, "/", []);
    assert Replace("/", "/", []) == [];
  }

  /**
   * Every occurrence of the prefix is removed, not only the leading one:
   * a folder named like the prefix itself yields an empty identifier.
   */
  lemma ExtractIdRemovesEveryOccurrence()
    ensures ExtractId("ab/ab/", "ab/") == ""
  {
    ReplaceAtMatch("ab/", "ab/", []);
    ReplaceAtMatch("", "ab/", []);
    assert "ab/ab/" == "ab/" + "ab/";
    assert "ab/" == "ab/" + "";
  }

  /** `"aabb/".replace("ab", "")`: one match, in the middle. */
  lemma RemoveMiddleMatch()
    ensures Replace("aabb/", "ab", []) == "ab/"
  {
    var e: string := [];
    assert Replace("/", "ab", e) == "/";
    assert ("b/")[..2][0] == 'b';
    assert "b/" == ['b'] + "/";
    ReplaceNoMatch('b', "/", "ab", e);
    assert "abb/" == "ab" + "b/";
    ReplaceAtMatch("b/", "ab", e);
    assert ("aabb/")[..2][1] == 'a';
    assert "aabb/" == ['a'] + "abb/";
    ReplaceNoMatch('a', "abb/", "ab", e);
  }

  /** `"ab/".replace("/", "")`. */
  lemma RemoveTrailingSlash()
    ensures Replace("ab/", "/", []) == "ab"
  {
    var e: string := [];
    assert "/" == "/" + e;
    ReplaceAtMatch(e, "/", e);
    assert "b/" == ['b'] + "/" && ("b/")[..1] != "/";
    ReplaceNoMatch('b', "/", "/", e);
    assert "ab/" == ['a'] + "b/" && ("ab/")[..1] != "/";
    ReplaceNoMatch('a', "b/", "/", e);
  }

  /**
   * A prefix without `/` can survive: removing "ab" from "aabb/" joins the
   * remaining halves into a new "ab", which the `/` removal leaves alone.
   */
  lemma ExtractIdCanKeepPrefix()
    ensures ExtractId("aabb/", "ab") == "ab"
    ensures Occurs("ab", ExtractId("aabb/", "ab"))
  {
    RemoveMiddleMatch();
    RemoveTrailingSlash();
    assert ("ab")[..2] == "ab";
  }
}
