/** Selecting the work of one invocation: `getImagesFromEvent`
    (src/faceswap.js:27-38) picks the uploaded keys to look at, and the
    accumulator of `detectFacesOnImages` (src/faceswap.js:40-64) keeps the images
    in which faces were found. */
module Events {

  import opened Strings
  import opened PathName
  import opened Detection

  /** The two fields of an S3 event record the filter reads. */
  datatype S3Record = S3Record(bucket: string, key: string)

  /** A record is kept when it comes from the configured bucket and its key's
      lower-cased extension is one of the allowed extensions. */
  predicate Accepted(r: S3Record, bucket: string, allowed: seq<string>) {
    r.bucket == bucket && LowerAscii(Extname(r.key)) in allowed
  }

  /** The `reduce` body: push the key of an accepted record onto `acc`. */
  function Collect(acc: seq<string>, records: seq<S3Record>, bucket: string, allowed: seq<string>): (r: seq<string>)
    ensures |acc| <= |r| <= |acc| + |records|
    decreases |records|
  {
    if records == [] then acc
    else
      var acc' := if Accepted(records[0], bucket, allowed) then acc + [records[0].key] else acc;
      Collect(acc', records[1..], bucket, allowed)
  }

  /** `getImagesFromEvent`, with the bucket name and the allowed extensions
      (the `|`-separated environment setting, already split) as parameters. */
  function ImagesFromEvent(records: seq<S3Record>, bucket: string, allowed: seq<string>): (r: seq<string>)
    ensures |r| <= |records|
  {
    Collect([], records, bucket, allowed)
  }

  /** The accumulator only ever grows at its end. */
  lemma {:induction false} CollectExtends(acc: seq<string>, records: seq<S3Record>, bucket: string, allowed: seq<string>)
    ensures Collect(acc, records, bucket, allowed) == acc + ImagesFromEvent(records, bucket, allowed)
    decreases |records|
  {
    if records == [] {
      assert acc + [] == acc;
    } else {
      var r, rest := records[0], records[1..];
      var seed := if Accepted(r, bucket, allowed) then [r.key] else [];
      assert acc + [] == acc;
      assert Collect(acc, records, bucket, allowed) == Collect(acc + seed, rest, bucket, allowed);
      assert ImagesFromEvent(records, bucket, allowed) == Collect([] + seed, rest, bucket, allowed);
      assert [] + seed == seed;
      CollectExtends(acc + seed, rest, bucket, allowed);
      CollectExtends(seed, rest, bucket, allowed);
      assert (acc + seed) + ImagesFromEvent(rest, bucket, allowed) == acc + (seed + ImagesFromEvent(rest, bucket, allowed));
    }
  }

  /** One record yields its key exactly when it is accepted. */
  lemma ImagesFromOneRecord(r: S3Record, bucket: string, allowed: seq<string>)
    ensures ImagesFromEvent([r], bucket, allowed) == if Accepted(r, bucket, allowed) then [r.key] else []
  {
    var seed := if Accepted(r, bucket, allowed) then [r.key] else [];
    assert [r][1..] == [];
    assert ImagesFromEvent([r], bucket, allowed) == Collect([] + seed, [], bucket, allowed);
    assert [] + seed == seed;
  }

  /** The selection of a concatenation is the concatenation of the selections.
      With the one-record case this pins the result down: the keys of the
      accepted records, in record order, duplicates kept. */
  lemma {:induction false} ImagesFromEventAppend(a: seq<S3Record>, b: seq<S3Record>, bucket: string, allowed: seq<string>)
    ensures ImagesFromEvent(a + b, bucket, allowed) == ImagesFromEvent(a, bucket, allowed) + ImagesFromEvent(b, bucket, allowed)
    decreases |a|
  {
    if a == [] {
      assert a + b == b;
    } else {
      var r := a[0];
      assert (a + b)[0] == r;
      assert (a + b)[1..] == a[1..] + b;
      var seed := if Accepted(r, bucket, allowed) then [r.key] else [];
      assert [] + seed == seed;
      assert ImagesFromEvent(a + b, bucket, allowed) == Collect(seed, a[1..] + b, bucket, allowed);
      assert ImagesFromEvent(a, bucket, allowed) == Collect(seed, a[1..], bucket, allowed);
      CollectExtends(seed, a[1..] + b, bucket, allowed);
      CollectExtends(seed, a[1..], bucket, allowed);
      ImagesFromEventAppend(a[1..], b, bucket, allowed);
    }
  }

  /** Every selected key is the key of some accepted record. */
  lemma {:induction false} ImagesFromEventSound(records: seq<S3Record>, bucket: string, allowed: seq<string>)
    ensures forall k :: k in ImagesFromEvent(records, bucket, allowed) ==>
      exists i :: 0 <= i < |records| && records[i].key == k && Accepted(records[i], bucket, allowed)
    decreases |records|
  {
    if records != [] {
      var r := records[0];
      assert records == [r] + records[1..];
      ImagesFromEventAppend([r], records[1..], bucket, allowed);
      ImagesFromOneRecord(r, bucket, allowed);
      ImagesFromEventSound(records[1..], bucket, allowed);
      forall k | k in ImagesFromEvent(records, bucket, allowed)
        ensures exists i :: 0 <= i < |records| && records[i].key == k && Accepted(records[i], bucket, allowed)
      {
        if k !in ImagesFromEvent([r], bucket, allowed) {
          var i :| 0 <= i < |records[1..]| && records[1..][i].key == k && Accepted(records[1..][i], bucket, allowed);
          assert records[i + 1] == records[1..][i];
        }
      }
    }
  }

  /** One detection result: the image key and the faces found in it. */
  datatype Detected = Detected(image: string, faces: seq<Face>)

  /** The accumulator of `detectFacesOnImages`: an image is recorded, with its
      faces, only when at least one face was found. A later result that found
      faces for the same key replaces the earlier entry; a result with no
      faces leaves the entry as it was. No entry is ever removed. */
  function ImagesWithFaces(acc: map<string, seq<Face>>, results: seq<Detected>): (m: map<string, seq<Face>>)
    ensures acc.Keys <= m.Keys
    decreases |results|
  {
    if results == [] then acc
    else
      var d := results[0];
      ImagesWithFaces(if |d.faces| > 0 then acc[d.image := d.faces] else acc, results[1..])
  }

  /** Index `i` holds the last result for image `k` that found faces. */
  ghost predicate LastFoundAt(results: seq<Detected>, k: string, i: int) {
    0 <= i < |results| && results[i].image == k && |results[i].faces| > 0 &&
    forall j :: i < j < |results| && results[j].image == k ==> |results[j].faces| == 0
  }

  /** No result for image `k` found a face. */
  ghost predicate NoneFound(results: seq<Detected>, k: string) {
    forall i :: 0 <= i < |results| && results[i].image == k ==> |results[i].faces| == 0
  }

  lemma NoneFoundInRest(results: seq<Detected>, k: string)
    requires results != [] && NoneFound(results, k)
    ensures NoneFound(results[1..], k)
  {
    forall j | 0 <= j < |results[1..]| && results[1..][j].image == k
      ensures |results[1..][j].faces| == 0
    {
      assert results[1..][j] == results[j + 1];
    }
  }

  /** The faces recorded for an image are those of the last result for it
      that found faces; an image no result found faces in keeps the entry it
      had before. */
  lemma {:induction false} ImagesWithFacesValues(acc: map<string, seq<Face>>, results: seq<Detected>)
    ensures var m := ImagesWithFaces(acc, results);
      (forall k, i :: LastFoundAt(results, k, i) ==> k in m && m[k] == results[i].faces) &&
      (forall k :: k in acc && NoneFound(results, k) ==> k in m && m[k] == acc[k])
    decreases |results|
  {
    if results != [] {
      var d, rest := results[0], results[1..];
      var acc' := if |d.faces| > 0 then acc[d.image := d.faces] else acc;
      ImagesWithFacesValues(acc', rest);
      var m := ImagesWithFaces(acc, results);
      assert m == ImagesWithFaces(acc', rest);
      forall k, i | LastFoundAt(results, k, i) ensures k in m && m[k] == results[i].faces {
        if i == 0 {
          forall j | 0 <= j < |rest| && rest[j].image == k ensures |rest[j].faces| == 0 {
            assert rest[j] == results[j + 1];
          }
          assert NoneFound(rest, k);
        } else {
          forall j | i - 1 < j < |rest| && rest[j].image == k ensures |rest[j].faces| == 0 {
            assert rest[j] == results[j + 1];
          }
          assert rest[i - 1] == results[i];
          assert LastFoundAt(rest, k, i - 1);
        }
      }
      forall k | k in acc && NoneFound(results, k) ensures k in m && m[k] == acc[k] {
        NoneFoundInRest(results, k);
        assert d == results[0];
      }
    }
  }

  /** An image is in the result exactly when it was there before or some
      result for it found a face, and no image is kept with no faces. */
  lemma {:induction false} ImagesWithFacesKeys(acc: map<string, seq<Face>>, results: seq<Detected>)
    requires forall k :: k in acc ==> |acc[k]| > 0
    ensures var m := ImagesWithFaces(acc, results);
      (forall k :: k in m ==> |m[k]| > 0) &&
      (forall k :: k in m <==> k in acc || exists i :: 0 <= i < |results| && results[i].image == k && |results[i].faces| > 0)
    decreases |results|
  {
    if results != [] {
      var d := results[0];
      var acc' := if |d.faces| > 0 then acc[d.image := d.faces] else acc;
      ImagesWithFacesKeys(acc', results[1..]);
      var m := ImagesWithFaces(acc, results);
      forall k ensures k in m <==> k in acc || exists i :: 0 <= i < |results| && results[i].image == k && |results[i].faces| > 0 {
        if k in m && k !in acc && k !in acc' {
          var i :| 0 <= i < |results[1..]| && results[1..][i].image == k && |results[1..][i].faces| > 0;
          assert results[i + 1] == results[1..][i];
        }
        if exists i :: 0 <= i < |results| && results[i].image == k && |results[i].faces| > 0 {
          var i :| 0 <= i < |results| && results[i].image == k && |results[i].faces| > 0;
          if i > 0 { assert results[1..][i - 1] == results[i]; }
        }
      }
    }
  }
}
