/**
 * The acceptance rules of the photo buffer (`handlePhotoUpload`, script.js:705-743, and
 * `removePhoto`, script.js:774-778): which files of a batch become photos, with which
 * ids. The buffer itself is a field of `Customers.CustomerManager`, whose methods are
 * proved against the functions here.
 */
module Photos {
  import opened Strings
  import opened Seqs

  /** At most five photos in the buffer, at most 5 MB each. */
  const MaxPhotos: nat := 5
  const MaxSize: nat := 5 * 1024 * 1024

  /** A photo in the buffer: its id, the file's name, the data URL and the upload time. */
  datatype Photo = Photo(id: int, name: string, dataUrl: string, uploaded: string)

  /**
   * A chosen or dropped file: its name, its size in bytes, its MIME type, and the data URL
   * the file reader produces for it.
   */
  datatype PhotoFile = PhotoFile(name: string, size: nat, mimeType: string, dataUrl: string)

  /** What the loop does with one file. */
  datatype Verdict = TooLarge | NotImage | Accepted

  /** The size test comes first, then the `image/` type test. */
  function Check(f: PhotoFile): (v: Verdict)
    ensures v == Accepted <==> f.size <= MaxSize && StartsWith(f.mimeType, "image/")
    ensures v == TooLarge <==> f.size > MaxSize
    ensures v == NotImage ==> !StartsWith(f.mimeType, "image/")
  {
    if f.size > MaxSize then TooLarge
    else if !StartsWith(f.mimeType, "image/") then NotImage
    else Accepted
  }

  /** The batch is refused as a whole when the buffer would exceed five photos. */
  predicate Fits(buffered: nat, incoming: nat) {
    buffered + incoming <= MaxPhotos
  }

  /** The photo recorded for `files[i]`: its id is the clock reading plus `i`. */
  function PhotoOf(files: seq<PhotoFile>, i: nat, now: int, stamp: string): Photo
    requires i < |files|
  {
    Photo(now + i, files[i].name, files[i].dataUrl, stamp)
  }

  /**
   * The photos recorded for the first `n` files: one for each accepted file, in file order.
   * The ids identify the files they come from and increase strictly.
   */
  function AcceptedUpTo(files: seq<PhotoFile>, n: nat, now: int, stamp: string): (r: seq<Photo>)
    requires n <= |files|
    ensures |r| <= n
    ensures forall k :: 0 <= k < |r| ==>
      && 0 <= r[k].id - now < n
      && Check(files[r[k].id - now]) == Accepted
      && r[k] == PhotoOf(files, r[k].id - now, now, stamp)
    ensures forall k, l :: 0 <= k < l < |r| ==> r[k].id < r[l].id
  {
    if n == 0 then []
    else
      var prev := AcceptedUpTo(files, n - 1, now, stamp);
      if Check(files[n - 1]) == Accepted then prev + [PhotoOf(files, n - 1, now, stamp)] else prev
  }

  /** Every accepted file among the first `n` gives a photo. */
  lemma {:induction false} AcceptedComplete(files: seq<PhotoFile>, n: nat, now: int, stamp: string, i: nat)
    requires i < n <= |files| && Check(files[i]) == Accepted
    ensures PhotoOf(files, i, now, stamp) in AcceptedUpTo(files, n, now, stamp)
  {
    if i < n - 1 {
      AcceptedComplete(files, n - 1, now, stamp, i);
    }
  }

  /** The photos of a batch are exactly those of its accepted files. */
  lemma AcceptedExactly(files: seq<PhotoFile>, now: int, stamp: string, p: Photo)
    ensures var r := AcceptedUpTo(files, |files|, now, stamp);
      p in r <==> exists i :: 0 <= i < |files| && Check(files[i]) == Accepted && p == PhotoOf(files, i, now, stamp)
  {
    var r := AcceptedUpTo(files, |files|, now, stamp);
    if p in r {
      var k :| 0 <= k < |r| && r[k] == p;
      var i := r[k].id - now;
      assert 0 <= i < |files| && Check(files[i]) == Accepted && p == PhotoOf(files, i, now, stamp);
    }
    if exists i :: 0 <= i < |files| && Check(files[i]) == Accepted && p == PhotoOf(files, i, now, stamp) {
      var i :| 0 <= i < |files| && Check(files[i]) == Accepted && p == PhotoOf(files, i, now, stamp);
      AcceptedComplete(files, |files|, now, stamp, i);
    }
  }

  /** A batch that fits leaves the buffer within five photos. */
  lemma BatchStaysWithinLimit(buffer: seq<Photo>, files: seq<PhotoFile>, now: int, stamp: string)
    requires Fits(|buffer|, |files|)
    ensures |buffer + AcceptedUpTo(files, |files|, now, stamp)| <= MaxPhotos
  {
  }

  /** `removePhoto`: the buffer without the photos of the given id, the rest in order. */
  function WithoutPhoto(photos: seq<Photo>, id: int): (r: seq<Photo>)
    ensures forall p :: p in r <==> p in photos && p.id != id
    ensures (forall k :: 0 <= k < |photos| ==> photos[k].id != id) ==> r == photos
  {
    FilterKeepsAll(photos, (p: Photo) => p.id != id);
    Filter(photos, (p: Photo) => p.id != id)
  }

  /** Each photo is decided on its own, so the remaining photos keep their order. */
  lemma WithoutPhotoAppend(a: seq<Photo>, b: seq<Photo>, id: int)
    ensures WithoutPhoto(a + b, id) == WithoutPhoto(a, id) + WithoutPhoto(b, id)
  {
    FilterAppend(a, b, (p: Photo) => p.id != id);
  }

  /** Removing a photo twice is removing it once. */
  lemma RemoveIdempotent(photos: seq<Photo>, id: int)
    ensures WithoutPhoto(WithoutPhoto(photos, id), id) == WithoutPhoto(photos, id)
  {
    var r := WithoutPhoto(photos, id);
    assert forall k :: 0 <= k < |r| ==> r[k] in r;
  }
}
