/** The mapping summary every processor reports after mapping: counts, the
    number of images nothing was mapped to, and one diagnostic per unmapped
    record. */
module Summaries {
  import opened Wrappers
  import opened Images
  import opened Partition

  /** One `missing_image_details` entry: the record's display name and the image it
      was expected to have (`None` prints as Python's `None`). */
  datatype Missing = Missing(name: string, expected: Option<string>)

  datatype Summary = Summary(
    totalContent: nat,
    totalImages: nat,
    mapped: nat,
    unmapped: nat,
    unusedImages: nat,
    missing: seq<Missing>)

  /** `set(images.keys()) - {name for _, name in mapped}`. */
  function UnusedImages<T>(images: Index, mapped: seq<(T, string)>): set<string>
  {
    KeySet(images) - ImageNames(mapped)
  }

  /** The `missing_image_details` loop. */
  method MissingDetails<T>(unmapped: seq<T>, nameOf: T -> string, expected: T -> Option<string>)
    returns (details: seq<Missing>)
    ensures |details| == |unmapped|
    ensures forall k :: 0 <= k < |unmapped| ==> details[k] == Missing(nameOf(unmapped[k]), expected(unmapped[k]))
  {
    details := [];
    for i := 0 to |unmapped|
      invariant |details| == i
      invariant forall k :: 0 <= k < i ==> details[k] == Missing(nameOf(unmapped[k]), expected(unmapped[k]))
    {
      details := details + [Missing(nameOf(unmapped[i]), expected(unmapped[i]))];
    }
  }

  /** A summary of a mapping: totals are the lengths of the inputs, the
      unused count is the number of keys no mapped pair names, and the
      details follow the unmapped records in order. */
  method MappingSummary<T>(content: seq<T>, images: Index, mapped: seq<(T, string)>, unmapped: seq<T>,
                           nameOf: T -> string, expected: T -> Option<string>)
    returns (s: Summary)
    ensures s.totalContent == |content| && s.totalImages == |images|
    ensures s.mapped == |mapped| && s.unmapped == |unmapped|
    ensures s.unusedImages == |UnusedImages(images, mapped)|
    ensures |s.missing| == |unmapped|
    ensures forall k :: 0 <= k < |unmapped| ==> s.missing[k] == Missing(nameOf(unmapped[k]), expected(unmapped[k]))
  {
    var unused := KeySet(images) - ImageNames(mapped);
    var details := MissingDetails(unmapped, nameOf, expected);
    s := Summary(|content|, |images|, |mapped|, |unmapped|, |unused|, details);
  }

  lemma {:induction false} KeySetSize(idx: Index)
    requires DistinctKeys(idx)
    ensures |KeySet(idx)| == |idx|
  {
    if |idx| > 0 {
      var n := |idx| - 1;
      KeySetSize(idx[..n]);
      assert idx == idx[..n] + [idx[n]];
      KeySetSnoc(idx[..n], idx[n]);
      assert idx[n].name !in KeySet(idx[..n]);
    }
  }

  lemma {:induction false} ImageNamesSize<T>(ps: seq<(T, string)>)
    ensures |ImageNames(ps)| <= |ps|
  {
    if |ps| > 0 {
      var n := |ps| - 1;
      ImageNamesSize(ps[..n]);
      assert ImageNames(ps) == ImageNames(ps[..n]) + {ps[n].1} by {
        forall x | x in ImageNames(ps[..n]) ensures x in ImageNames(ps) {
          var j :| 0 <= j < n && ps[..n][j].1 == x;
          assert ps[j].1 == x;
        }
      }
    }
  }

  /** When every mapped name is a key of a well-formed index, the unused
      images and the distinct mapped names together account for every image:
      an image shared by several records is counted once. */
  lemma UnusedAccountsForImages<T>(images: Index, mapped: seq<(T, string)>)
    requires DistinctKeys(images)
    requires forall k :: 0 <= k < |mapped| ==> mapped[k].1 in KeySet(images)
    ensures |UnusedImages(images, mapped)| + |ImageNames(mapped)| == |images|
    ensures |UnusedImages(images, mapped)| >= |images| - |mapped|
  {
    KeySetSize(images);
    ImageNamesSize(mapped);
    assert ImageNames(mapped) <= KeySet(images);
    assert KeySet(images) == UnusedImages(images, mapped) + ImageNames(mapped);
  }
}
