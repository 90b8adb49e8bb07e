/** Object names of the photo store
    (`backend/services/external_services/s3_service.py`): the name a new
    upload gets, the URL it is served under, and the key `delete_file`
    derives from a URL or name. The bucket calls themselves are I/O outside
    the model; their answer is a parameter. */
module S3Keys {
  import opened Common

  /** `sep` occurs in `s` at index `j`. */
  predicate OccursAt(s: string, sep: string, j: int) {
    0 <= j && j + |sep| <= |s| && s[j..j + |sep|] == sep
  }

  /** Python's `sep in s`. */
  ghost predicate Contains(s: string, sep: string) {
    exists j :: OccursAt(s, sep, j)
  }

  /** Python's `s.find(sep)`: the first occurrence, if any. */
  function IndexOf(s: string, sep: string): (r: Option<nat>)
    requires |sep| > 0
    ensures r.Some? ==> OccursAt(s, sep, r.value) && forall j :: 0 <= j < r.value ==> !OccursAt(s, sep, j)
    ensures r.None? <==> !Contains(s, sep)
    decreases |s|
  {
    if |s| < |sep| then
      None
    else if s[..|sep|] == sep then Some(0)
    else
      match IndexOf(s[1..], sep)
      case None =>
        assert forall j :: !OccursAt(s, sep, j) by {
          forall j ensures !OccursAt(s, sep, j) {
            if j > 0 {
              OccursInTail(s, sep, j);
            }
          }
        }
        None
      case Some(i) =>
        assert OccursAt(s, sep, i + 1) && forall j :: 0 <= j < i + 1 ==> !OccursAt(s, sep, j) by {
          forall j | 0 < j <= i + 1 ensures OccursAt(s, sep, j) <==> OccursAt(s[1..], sep, j - 1) {
            OccursInTail(s, sep, j);
          }
        }
        Some(i + 1)
  }

  /** An occurrence past the first character is one in the rest. */
  lemma OccursInTail(s: string, sep: string, j: int)
    requires |s| > 0 && j > 0
    ensures OccursAt(s, sep, j) <==> OccursAt(s[1..], sep, j - 1)
  {
    if j + |sep| <= |s| {
      assert s[j..j + |sep|] == s[1..][j - 1..j - 1 + |sep|];
    }
  }

  /** The first occurrence is the one `IndexOf` finds. */
  lemma IndexOfFirst(s: string, sep: string, k: nat)
    requires |sep| > 0 && OccursAt(s, sep, k)
    requires forall j :: 0 <= j < k ==> !OccursAt(s, sep, j)
    ensures IndexOf(s, sep) == Some(k)
  {
    assert Contains(s, sep);
  }

  /** The text after the first separator: what `Split` splits further. */
  function After(s: string, sep: string): (rest: string)
    requires |sep| > 0 && IndexOf(s, sep).Some?
    ensures s == s[..IndexOf(s, sep).value] + sep + rest
  {
    var i := IndexOf(s, sep).value;
    assert s == s[..i] + s[i..i + |sep|] + s[i + |sep|..];
    s[i + |sep|..]
  }

  /** Python's `s.split(sep)` for a non-empty separator: the pieces between
      the occurrences of `sep`, scanned left to right. */
  function Split(s: string, sep: string): (r: seq<string>)
    requires |sep| > 0
    ensures |r| >= 1
    decreases |s|
  {
    match IndexOf(s, sep)
    case None => [s]
    case Some(i) => [s[..i]] + Split(After(s, sep), sep)
  }

  /** Python's `sep.join(parts)`. */
  function Join(parts: seq<string>, sep: string): string
    decreases |parts|
  {
    if parts == [] then ""
    else if |parts| == 1 then parts[0]
    else parts[0] + sep + Join(parts[1..], sep)
  }

  function Last(parts: seq<string>): string
    requires |parts| >= 1
  {
    parts[|parts| - 1]
  }

  /** Where the separator occurs, the first piece is followed by the pieces
      of what comes after it. */
  lemma SplitFound(s: string, sep: string)
    requires |sep| > 0 && IndexOf(s, sep).Some?
    ensures Split(s, sep) == [s[..IndexOf(s, sep).value]] + Split(After(s, sep), sep)
    ensures Last(Split(s, sep)) == Last(Split(After(s, sep), sep))
  {
    LastCons(s[..IndexOf(s, sep).value], Split(After(s, sep), sep));
  }

  lemma LastCons(first: string, parts: seq<string>)
    requires |parts| >= 1
    ensures Last([first] + parts) == Last(parts)
  {
  }

  lemma JoinCons(first: string, parts: seq<string>, sep: string)
    requires |parts| >= 1
    ensures Join([first] + parts, sep) == first + sep + Join(parts, sep)
  {
    assert ([first] + parts)[1..] == parts;
  }

  /** Joining the pieces with the separator gives back the string. */
  lemma {:induction false} JoinSplit(s: string, sep: string)
    requires |sep| > 0
    ensures Join(Split(s, sep), sep) == s
    decreases |s|
  {
    if IndexOf(s, sep).Some? {
      var rest := After(s, sep);
      JoinSplit(rest, sep);
      SplitFound(s, sep);
      JoinCons(s[..IndexOf(s, sep).value], Split(rest, sep), sep);
    }
  }

  /** `s` ends with `t`. */
  predicate EndsWith(s: string, t: string) {
    |t| <= |s| && s[|s| - |t|..] == t
  }

  lemma EndsWithTransitive(s: string, u: string, t: string)
    requires EndsWith(s, u) && EndsWith(u, t)
    ensures EndsWith(s, t)
  {
    assert s[|s| - |t|..] == s[|s| - |u|..][|u| - |t|..];
  }

  /** The last piece holds no separator. */
  lemma {:induction false} LastPieceHasNoSeparator(s: string, sep: string)
    requires |sep| > 0
    ensures !Contains(Last(Split(s, sep)), sep)
    decreases |s|
  {
    if IndexOf(s, sep).Some? {
      LastPieceHasNoSeparator(After(s, sep), sep);
      SplitFound(s, sep);
    }
  }

  /** When `s` holds the separator, it ends with the separator followed by
      the last piece. */
  lemma {:induction false} EndsWithLastPiece(s: string, sep: string)
    requires |sep| > 0 && IndexOf(s, sep).Some?
    ensures EndsWith(s, sep + Last(Split(s, sep)))
    decreases |s|
  {
    var rest := After(s, sep);
    SplitFound(s, sep);
    AfterIsSuffix(s, sep);
    if IndexOf(rest, sep).Some? {
      EndsWithLastPiece(rest, sep);
      EndsWithTransitive(s, rest, sep + Last(Split(rest, sep)));
    } else {
      assert Split(rest, sep) == [rest];
    }
  }

  /** What follows the first separator ends the string, with and without
      that separator. */
  lemma AfterIsSuffix(s: string, sep: string)
    requires |sep| > 0 && IndexOf(s, sep).Some?
    ensures EndsWith(s, After(s, sep)) && EndsWith(s, sep + After(s, sep))
  {
    var i, rest := IndexOf(s, sep).value, After(s, sep);
    assert s[i..] == sep + rest;
  }

  const PHOTOS_PREFIX := "photos/"

  /** The extension `generate_unique_filename` keeps: the text after the last
      dot, or nothing when the name has no dot. */
  function Extension(name: string): (ext: string)
    ensures !Contains(ext, ".")
    ensures !Contains(name, ".") ==> ext == ""
    ensures Contains(name, ".") ==> EndsWith(name, "." + ext)
  {
    LastPieceHasNoSeparator(name, ".");
    if IndexOf(name, ".").Some? then
      EndsWithLastPiece(name, ".");
      Last(Split(name, "."))
    else
      assert !OccursAt("", ".", 0);
      ""
  }

  /** `generate_unique_filename`: `photos/<uuid>.<extension>`; the uuid is a
      parameter. Nothing else of the original name survives. */
  function UniqueFilename(name: string, uuid: string): (r: string)
    ensures StartsWith(r, PHOTOS_PREFIX + uuid + ".")
    ensures r[|PHOTOS_PREFIX + uuid + "."|..] == Extension(name)
    ensures !Contains(name, ".") ==> r == PHOTOS_PREFIX + uuid + "."
  {
    PHOTOS_PREFIX + uuid + "." + Extension(name)
  }

  lemma UniqueFilenameShape(name: string, uuid: string)
    ensures UniqueFilename(name, uuid) == PHOTOS_PREFIX + (uuid + "." + Extension(name))
  {
    var ext := Extension(name);
    assert PHOTOS_PREFIX + uuid + "." + ext == PHOTOS_PREFIX + (uuid + "." + ext);
  }

  /** Two names that end alike after their last dot get the same object
      name: nothing before that dot survives. */
  lemma FilenameIgnoresBaseName(a: string, b: string, uuid: string, ext: string)
    requires Contains(a, ".") && Contains(b, ".")
    requires EndsWith(a, "." + ext) && EndsWith(b, "." + ext) && !Contains(ext, ".")
    ensures UniqueFilename(a, uuid) == UniqueFilename(b, uuid)
  {
    LastDotSuffix(a, ext);
    LastDotSuffix(b, ext);
  }

  /** The text after the last dot is the one suffix `"." + ext` with no dot
      in `ext`. */
  lemma LastDotSuffix(name: string, ext: string)
    requires Contains(name, ".") && EndsWith(name, "." + ext) && !Contains(ext, ".")
    ensures Extension(name) == ext
  {
    var e := Extension(name);
    if |e| < |ext| {
      LongerSuffixHoldsDot(name, e, ext);
    } else if |ext| < |e| {
      LongerSuffixHoldsDot(name, ext, e);
    } else {
      assert "." + e == name[|name| - |e| - 1..] == "." + ext;
      assert e == ("." + e)[1..];
    }
  }

  /** Of two dotted suffixes, the longer holds the dot of the shorter. */
  lemma LongerSuffixHoldsDot(name: string, short: string, long: string)
    requires EndsWith(name, "." + short) && EndsWith(name, "." + long) && |short| < |long|
    ensures Contains(long, ".")
  {
    var k := |long| - |short| - 1;
    assert long[k] == ("." + long)[k + 1] == name[|name| - |short| - 1] == ("." + short)[0] == '.';
    assert OccursAt(long, ".", k) by {
      assert long[k..k + 1] == [long[k]];
    }
  }

  /** `upload_file`'s result: `<endpoint>/<bucket>/<object name>`. */
  function FileUrl(endpoint: string, bucket: string, objectName: string): (url: string)
    ensures StartsWith(url, endpoint + "/" + bucket + "/")
    ensures url[|endpoint + "/" + bucket + "/"|..] == objectName
  {
    endpoint + "/" + bucket + "/" + objectName
  }

  const PHOTOS_SEGMENT := "/photos/"

  /** `delete_file`'s key: the text after the last `/photos/` (the whole
      input when there is none), split on "/" and joined again, behind
      `photos/`. */
  function DeleteKey(objectName: string): (key: string)
    ensures key == PHOTOS_PREFIX + Last(Split(objectName, PHOTOS_SEGMENT))
    ensures !Contains(objectName, PHOTOS_SEGMENT) ==> key == PHOTOS_PREFIX + objectName
  {
    var tail := Last(Split(objectName, PHOTOS_SEGMENT));
    JoinSplit(tail, "/");
    PHOTOS_PREFIX + Join(Split(tail, "/"), "/")
  }

  /** When the first `/photos/` of a URL is the one before the object name,
      and the object name holds no other, the derived key is `photos/` and
      that object name. */
  lemma DeleteKeyOfUrl(url: string, prefix: string, tail: string)
    requires url == prefix + PHOTOS_SEGMENT + tail
    requires IndexOf(url, PHOTOS_SEGMENT) == Some(|prefix|)
    requires !Contains(tail, PHOTOS_SEGMENT)
    ensures DeleteKey(url) == PHOTOS_PREFIX + tail
  {
    assert url[|prefix| + |PHOTOS_SEGMENT|..] == tail;
    assert Split(url, PHOTOS_SEGMENT) == [url[..|prefix|]] + Split(tail, PHOTOS_SEGMENT);
  }

  /** The first `/photos/` of `prefix + "/photos/"` stays the first one
      whatever follows it. */
  lemma FirstSegmentKept(prefix: string, tail: string)
    requires IndexOf(prefix + PHOTOS_SEGMENT, PHOTOS_SEGMENT) == Some(|prefix|)
    ensures IndexOf(prefix + PHOTOS_SEGMENT + tail, PHOTOS_SEGMENT) == Some(|prefix|)
  {
    var head := prefix + PHOTOS_SEGMENT;
    forall j | 0 <= j <= |prefix| ensures OccursAt(head + tail, PHOTOS_SEGMENT, j) <==> OccursAt(head, PHOTOS_SEGMENT, j) {
      OccursInPrefix(head, tail, PHOTOS_SEGMENT, j);
    }
    IndexOfFirst(head + tail, PHOTOS_SEGMENT, |prefix|);
  }

  /** An occurrence that ends inside `head` is unchanged by what follows. */
  lemma OccursInPrefix(head: string, tail: string, sep: string, j: nat)
    requires j + |sep| <= |head|
    ensures OccursAt(head + tail, sep, j) <==> OccursAt(head, sep, j)
  {
    assert (head + tail)[j..j + |sep|] == head[j..j + |sep|];
  }

  /** The URL of an object under `photos/` holds `/photos/` right after the
      bucket. */
  lemma PhotoUrlShape(endpoint: string, bucket: string, tail: string)
    ensures FileUrl(endpoint, bucket, PHOTOS_PREFIX + tail) == endpoint + "/" + bucket + PHOTOS_SEGMENT + tail
  {
    var prefix := endpoint + "/" + bucket;
    assert "/" + (PHOTOS_PREFIX + tail) == PHOTOS_SEGMENT + tail;
    assert prefix + "/" + (PHOTOS_PREFIX + tail) == prefix + ("/" + (PHOTOS_PREFIX + tail));
    assert prefix + PHOTOS_SEGMENT + tail == prefix + (PHOTOS_SEGMENT + tail);
  }

  /** The URL `upload_file` returns is deleted under the key it was uploaded
      with, when the bucket part of the URL ends the first `/photos/` right
      before the object name and the generated name holds no other. */
  lemma UploadedUrlRoundTrip(endpoint: string, bucket: string, name: string, uuid: string)
    requires IndexOf(endpoint + "/" + bucket + PHOTOS_SEGMENT, PHOTOS_SEGMENT) == Some(|endpoint + "/" + bucket|)
    requires !Contains(uuid + "." + Extension(name), PHOTOS_SEGMENT)
    ensures DeleteKey(FileUrl(endpoint, bucket, UniqueFilename(name, uuid))) == UniqueFilename(name, uuid)
  {
    var prefix, tail := endpoint + "/" + bucket, uuid + "." + Extension(name);
    UniqueFilenameShape(name, uuid);
    PhotoUrlShape(endpoint, bucket, tail);
    FirstSegmentKept(prefix, tail);
    DeleteKeyOfUrl(prefix + PHOTOS_SEGMENT + tail, prefix, tail);
  }

  /** A bucket named `photos` breaks the round trip: the bucket's own
      segment is the first `/photos/`, so the key keeps a second `photos/`. */
  lemma PhotosBucketDeletesWrongKey(endpoint: string, name: string)
    requires IndexOf(endpoint + PHOTOS_SEGMENT, PHOTOS_SEGMENT) == Some(|endpoint|)
    requires !Contains(PHOTOS_PREFIX + name, PHOTOS_SEGMENT)
    ensures DeleteKey(FileUrl(endpoint, "photos", PHOTOS_PREFIX + name)) == PHOTOS_PREFIX + (PHOTOS_PREFIX + name)
  {
    var tail := PHOTOS_PREFIX + name;
    PhotosBucketUrl(endpoint, tail);
    FirstSegmentKept(endpoint, tail);
    DeleteKeyOfUrl(endpoint + PHOTOS_SEGMENT + tail, endpoint, tail);
  }

  /** Under a bucket named `photos`, the bucket segment is `/photos/`. */
  lemma PhotosBucketUrl(endpoint: string, objectName: string)
    ensures FileUrl(endpoint, "photos", objectName) == endpoint + PHOTOS_SEGMENT + objectName
  {
    assert "/" + "photos" + "/" == PHOTOS_SEGMENT;
    assert FileUrl(endpoint, "photos", objectName) == endpoint + ("/" + "photos" + "/") + objectName;
  }

  /** Deriving the key is not idempotent: the key of a plain file name
      already under `photos/` gains a second prefix. */
  lemma DeleteKeyNotIdempotent(name: string)
    requires !Contains(name, "/")
    ensures DeleteKey(PHOTOS_PREFIX + name) == PHOTOS_PREFIX + PHOTOS_PREFIX + name
  {
    var key := PHOTOS_PREFIX + name;
    forall j | OccursAt(key, PHOTOS_SEGMENT, j) ensures OccursAt(name, "/", j) {
      assert name[j..j + 1] == [key[j + 7]];
    }
  }

  /** The answer of `delete_objects`: a response (its top-level keys), or an
      exception from the client. */
  datatype DeleteResponse = Response(keys: set<string>) | ClientFailure

  /** `delete_file`'s outcome: true when the response reports `Deleted`.
      The 404 raised otherwise is inside the `try`, whose handler turns it,
      like any client failure, into a 500. */
  function DeleteOutcome(response: DeleteResponse): (r: Result<bool>)
    ensures r.Ok? <==> response.Response? && "Deleted" in response.keys
    ensures r.Ok? ==> r.value
    ensures r.Err? ==> r.error == HttpError(INTERNAL_ERROR)
  {
    if response.Response? && "Deleted" in response.keys then Ok(true)
    else Err(HttpError(INTERNAL_ERROR))
  }
}
