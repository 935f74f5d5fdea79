/**
 * The image uploader's preview list: selected files are filtered to images,
 * cut to the remaining capacity, turned into preview URLs and appended;
 * a preview can be removed by position.
 */
module ImageUploader {
  import opened Wrappers
  import opened Text

  /** A selected file, reduced to what the uploader inspects. */
  datatype File = File(name: string, mimeType: string)

  /** `file.type.startsWith('image/')`. */
  predicate IsImage(f: File) {
    StartsWith(f.mimeType, "image/")
  }

  /** `fileArray.filter(file => file.type.startsWith('image/'))`. */
  function ValidImages(files: seq<File>): (r: seq<File>)
    ensures |r| <= |files|
    ensures forall f :: f in r ==> f in files && IsImage(f)
    decreases |files|
  {
    if files == [] then []
    else (if IsImage(files[0]) then [files[0]] else []) + ValidImages(files[1..])
  }

  /** Filtering distributes over concatenation, so relative order is preserved. */
  lemma {:induction false} ValidImagesAppend(a: seq<File>, b: seq<File>)
    ensures ValidImages(a + b) == ValidImages(a) + ValidImages(b)
    decreases |a|
  {
    if a != [] {
      assert (a + b)[0] == a[0] && (a + b)[1..] == a[1..] + b;
      ValidImagesAppend(a[1..], b);
      var head := if IsImage(a[0]) then [a[0]] else [];
      assert ValidImages(a + b) == head + (ValidImages(a[1..]) + ValidImages(b));
    } else {
      assert a + b == b;
    }
  }

  /** Every image in the selection survives the filter. */
  lemma {:induction false} ValidImagesKeepsImages(files: seq<File>)
    ensures forall f :: f in files && IsImage(f) ==> f in ValidImages(files)
    decreases |files|
  {
    if files != [] {
      ValidImagesKeepsImages(files[1..]);
      forall f | f in files && IsImage(f)
        ensures f in ValidImages(files)
      {
        if f != files[0] {
          assert f in files[1..];
        }
      }
    }
  }

  /** A selection without images yields nothing. */
  lemma {:induction false} ValidImagesNone(files: seq<File>)
    requires forall i :: 0 <= i < |files| ==> !IsImage(files[i])
    ensures ValidImages(files) == []
    decreases |files|
  {
    if files != [] {
      ValidImagesNone(files[1..]);
    }
  }

  /**
   * `s.slice(0, end)`: a non-negative end is clamped to the length; a negative
   * end counts back from the end of the list.
   */
  function SliceFront<T>(s: seq<T>, end: int): (r: seq<T>)
    ensures r <= s
    ensures 0 <= end ==> |r| == if end <= |s| then end else |s|
    ensures end < 0 ==> |r| == if |s| + end >= 0 then |s| + end else 0
  {
    if end >= |s| then s
    else if end >= 0 then s[..end]
    else if |s| + end >= 0 then s[..|s| + end]
    else []
  }

  /** `limitedFiles`: the images admitted from one selection, a prefix of the selection's images. */
  function Admitted(files: seq<File>, maxFiles: int, previewCount: nat): (r: seq<File>)
    ensures r <= ValidImages(files)
    ensures forall f :: f in r ==> f in files && IsImage(f)
  {
    SliceFront(ValidImages(files), maxFiles - previewCount)
  }

  /**
   * While the previews are within capacity, a selection admits the first
   * images of the selection, as many as fit, so the previews stay within
   * capacity.
   */
  lemma AdmittedWithinCapacity(files: seq<File>, maxFiles: int, previewCount: nat)
    requires previewCount <= maxFiles
    ensures Admitted(files, maxFiles, previewCount) <= ValidImages(files)
    ensures previewCount + |Admitted(files, maxFiles, previewCount)| <= maxFiles
    ensures |Admitted(files, maxFiles, previewCount)| ==
      if |ValidImages(files)| <= maxFiles - previewCount then |ValidImages(files)|
      else maxFiles - previewCount
  {
  }

  /**
   * Past capacity the slice bound is negative and counts from the end: all but
   * the last `previewCount - maxFiles` images are still admitted.
   */
  lemma AdmittedOverCapacity(files: seq<File>, maxFiles: int, previewCount: nat)
    requires previewCount > maxFiles
    ensures |Admitted(files, maxFiles, previewCount)| ==
      if |ValidImages(files)| >= previewCount - maxFiles
      then |ValidImages(files)| - (previewCount - maxFiles) else 0
  {
  }

  /** A selection made only of images passes the filter whole. */
  lemma {:induction false} ValidImagesAllImages(files: seq<File>)
    requires forall i :: 0 <= i < |files| ==> IsImage(files[i])
    ensures ValidImages(files) == files
    decreases |files|
  {
    if files != [] {
      ValidImagesAllImages(files[1..]);
      assert [files[0]] + files[1..] == files;
    }
  }

  /** Three existing previews over a capacity of one still let two of four images in. */
  lemma OverCapacityExample(a: File, b: File, c: File, d: File)
    requires IsImage(a) && IsImage(b) && IsImage(c) && IsImage(d)
    ensures Admitted([a, b, c, d], 1, 3) == [a, b]
  {
    ValidImagesAllImages([a, b, c, d]);
    assert SliceFront([a, b, c, d], 1 - 3) == [a, b, c, d][..2];
  }

  /** `prev.filter((_, i) => i !== index)`, with `offset` the position of `s[0]`. */
  function RemoveIndexFrom<T>(s: seq<T>, index: int, offset: nat): seq<T>
    decreases |s|
  {
    if s == [] then []
    else (if offset == index then [] else [s[0]]) + RemoveIndexFrom(s[1..], index, offset + 1)
  }

  lemma {:induction false} RemoveIndexFromSpec<T>(s: seq<T>, index: int, offset: nat)
    ensures RemoveIndexFrom(s, index, offset) ==
      if offset <= index < offset + |s| then s[..index - offset] + s[index - offset + 1..] else s
    decreases |s|
  {
    if s != [] {
      RemoveIndexFromSpec(s[1..], index, offset + 1);
      if offset == index {
      } else if offset < index < offset + |s| {
        assert s[..index - offset] == [s[0]] + s[1..][..index - offset - 1];
        assert s[index - offset + 1..] == s[1..][index - offset..];
      } else {
        assert [s[0]] + s[1..] == s;
      }
    }
  }

  /**
   * `removeImage(index)` applied to a preview list: deletes exactly the element
   * at that position and keeps the rest in order; an index out of range
   * changes nothing.
   */
  function RemoveImage<T>(s: seq<T>, index: int): (r: seq<T>)
    ensures 0 <= index < |s| ==> r == s[..index] + s[index + 1..] && |r| == |s| - 1
    ensures !(0 <= index < |s|) ==> r == s
  {
    RemoveIndexFromSpec(s, index, 0);
    RemoveIndexFrom(s, index, 0)
  }

  /** `limitedFiles.map(file => URL.createObjectURL(file))`. */
  function PreviewUrls(files: seq<File>, objectUrl: File -> string): (urls: seq<string>)
    ensures |urls| == |files|
    ensures forall i :: 0 <= i < |files| ==> urls[i] == objectUrl(files[i])
  {
    seq(|files|, i requires 0 <= i < |files| => objectUrl(files[i]))
  }

  /** The `maxFiles` prop's default. */
  const DefaultMaxFiles: int := 3

  /**
   * The uploader's state: the preview URLs (seeded with the existing images),
   * the drag-over highlight, and every batch handed to `onUpload`, in order.
   */
  class Uploader {
    const maxFiles: int
    var previews: seq<string>
    var isDragOver: bool
    var uploads: seq<seq<File>>

    /** The component mounted without the optional props: at most 3 files, no existing images. */
    constructor Default()
      ensures maxFiles == DefaultMaxFiles && previews == []
      ensures !isDragOver && uploads == []
    {
      maxFiles := DefaultMaxFiles;
      previews := [];
      isDragOver := false;
      uploads := [];
    }

    constructor(maxFiles: int, existingImages: seq<string>)
      ensures this.maxFiles == maxFiles && previews == existingImages
      ensures !isDragOver && uploads == []
    {
      this.maxFiles := maxFiles;
      previews := existingImages;
      isDragOver := false;
      uploads := [];
    }

    /**
     * `handleFileSelect`: a missing list or a selection that admits nothing
     * changes nothing; otherwise the admitted images' previews are appended
     * after the existing ones and the admitted images are uploaded.
     */
    method HandleFileSelect(files: Option<seq<File>>, objectUrl: File -> string)
      modifies this
      ensures var added := if files.Some? then Admitted(files.value, maxFiles, |old(previews)|) else [];
        && previews == old(previews) + PreviewUrls(added, objectUrl)
        && uploads == old(uploads) + (if added == [] then [] else [added])
      ensures isDragOver == old(isDragOver)
      ensures |old(previews)| <= maxFiles ==> |previews| <= maxFiles
    {
      if files.None? {
        return;
      }
      var validFiles := ValidImages(files.value);
      var limitedFiles := SliceFront(validFiles, maxFiles - |previews|);
      if |previews| <= maxFiles {
        AdmittedWithinCapacity(files.value, maxFiles, |previews|);
      }
      if |limitedFiles| > 0 {
        previews := previews + PreviewUrls(limitedFiles, objectUrl);
        uploads := uploads + [limitedFiles];
      }
    }

    /** `handleDrop`: clear the highlight, then select the dropped files. */
    method HandleDrop(files: Option<seq<File>>, objectUrl: File -> string)
      modifies this
      ensures var added := if files.Some? then Admitted(files.value, maxFiles, |old(previews)|) else [];
        && previews == old(previews) + PreviewUrls(added, objectUrl)
        && uploads == old(uploads) + (if added == [] then [] else [added])
      ensures !isDragOver
    {
      isDragOver := false;
      HandleFileSelect(files, objectUrl);
    }

    method HandleDragOver()
      modifies this
      ensures isDragOver && previews == old(previews) && uploads == old(uploads)
    {
      isDragOver := true;
    }

    method HandleDragLeave()
      modifies this
      ensures !isDragOver && previews == old(previews) && uploads == old(uploads)
    {
      isDragOver := false;
    }

    /** `removeImage(index)`. */
    method Remove(index: int)
      modifies this
      ensures previews == RemoveImage(old(previews), index)
      ensures isDragOver == old(isDragOver) && uploads == old(uploads)
    {
      previews := RemoveImage(previews, index);
    }
  }
}
