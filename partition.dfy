/** The mapped/unmapped split every mapping loop of the program performs:
    walk the records once, look each one up, and append it either to the
    mapped list (with the image name found) or to the unmapped list. */
module Partition {
  import opened Wrappers
  import opened Seqs

  /** Python's `if image_name:` on the result of a lookup. */
  predicate IsHit(r: Option<string>)
  {
    r.Some? && r.value != ""
  }

  /** The `(record, image name)` pairs of the records whose lookup hits, in order. */
  function MappedPart<T>(xs: seq<T>, find: T -> Option<string>): (r: seq<(T, string)>)
    ensures |r| <= |xs|
    ensures forall k :: 0 <= k < |r| ==> IsHit(find(r[k].0)) && r[k].1 == find(r[k].0).value
  {
    if |xs| == 0 then []
    else
      var x := xs[|xs| - 1];
      MappedPart(xs[..|xs| - 1], find) + (if IsHit(find(x)) then [(x, find(x).value)] else [])
  }

  /** The records whose lookup misses, in order. */
  function UnmappedPart<T>(xs: seq<T>, find: T -> Option<string>): (r: seq<T>)
    ensures |r| <= |xs|
    ensures forall k :: 0 <= k < |r| ==> !IsHit(find(r[k]))
  {
    if |xs| == 0 then []
    else
      var x := xs[|xs| - 1];
      UnmappedPart(xs[..|xs| - 1], find) + (if IsHit(find(x)) then [] else [x])
  }

  /** The records of a list of pairs. */
  function Records<T>(ps: seq<(T, string)>): (r: seq<T>)
    ensures |r| == |ps|
    ensures forall k :: 0 <= k < |ps| ==> r[k] == ps[k].0
  {
    if |ps| == 0 then [] else Records(ps[..|ps| - 1]) + [ps[|ps| - 1].0]
  }

  /** The image names of a list of pairs, as a set. */
  function ImageNames<T>(ps: seq<(T, string)>): set<string>
  {
    set k | 0 <= k < |ps| :: ps[k].1
  }

  lemma PartsSnoc<T>(xs: seq<T>, i: nat, find: T -> Option<string>)
    requires i < |xs|
    ensures MappedPart(xs[..i + 1], find) ==
            MappedPart(xs[..i], find) + (if IsHit(find(xs[i])) then [(xs[i], find(xs[i]).value)] else [])
    ensures UnmappedPart(xs[..i + 1], find) ==
            UnmappedPart(xs[..i], find) + (if IsHit(find(xs[i])) then [] else [xs[i]])
  {
    assert xs[..i + 1][..i] == xs[..i];
  }

  /** Every record lands in exactly one of the two lists. */
  lemma {:induction false} PartitionCounts<T>(xs: seq<T>, find: T -> Option<string>)
    ensures |MappedPart(xs, find)| + |UnmappedPart(xs, find)| == |xs|
  {
    if |xs| > 0 {
      PartitionCounts(xs[..|xs| - 1], find);
    }
  }

  /** The lookup of `x` hits. */
  function Hits<T>(find: T -> Option<string>): T -> bool
  {
    x => IsHit(find(x))
  }

  /** The lookup of `x` misses. */
  function Misses<T>(find: T -> Option<string>): T -> bool
  {
    x => !IsHit(find(x))
  }

  /** Together the two lists hold exactly the input records, each as often as
      it occurs in the input. */
  lemma PartitionIsPermutation<T>(xs: seq<T>, find: T -> Option<string>)
    ensures multiset(Records(MappedPart(xs, find))) + multiset(UnmappedPart(xs, find)) == multiset(xs)
  {
    PartitionIsStable(xs, find);
    FilterSplit(xs, Hits(find), Misses(find));
  }

  /** Both lists keep the input order: they are the input filtered by the
      lookup's outcome. */
  lemma PartitionIsStable<T>(xs: seq<T>, find: T -> Option<string>)
    ensures Records(MappedPart(xs, find)) == Filter(xs, Hits(find))
    ensures UnmappedPart(xs, find) == Filter(xs, Misses(find))
  {
    MappedIsFilter(xs, find);
    UnmappedIsFilter(xs, find);
  }

  lemma {:induction false} MappedIsFilter<T>(xs: seq<T>, find: T -> Option<string>)
    ensures Records(MappedPart(xs, find)) == Filter(xs, Hits(find))
  {
    if |xs| > 0 {
      var init, x := xs[..|xs| - 1], xs[|xs| - 1];
      MappedIsFilter(init, find);
      assert xs == init + [x];
      FilterAppend(init, [x], Hits(find));
      var m := MappedPart(init, find);
      if IsHit(find(x)) {
        assert (m + [(x, find(x).value)])[..|m|] == m;
      }
    }
  }

  lemma {:induction false} UnmappedIsFilter<T>(xs: seq<T>, find: T -> Option<string>)
    ensures UnmappedPart(xs, find) == Filter(xs, Misses(find))
  {
    if |xs| > 0 {
      var init, x := xs[..|xs| - 1], xs[|xs| - 1];
      UnmappedIsFilter(init, find);
      assert xs == init + [x];
      FilterAppend(init, [x], Misses(find));
    }
  }

  /** The loop every mapping function runs. */
  method PartitionBy<T>(xs: seq<T>, find: T -> Option<string>) returns (mapped: seq<(T, string)>, unmapped: seq<T>)
    ensures mapped == MappedPart(xs, find)
    ensures unmapped == UnmappedPart(xs, find)
    ensures |mapped| + |unmapped| == |xs|
  {
    mapped := [];
    unmapped := [];
    for i := 0 to |xs|
      invariant mapped == MappedPart(xs[..i], find)
      invariant unmapped == UnmappedPart(xs[..i], find)
    {
      PartsSnoc(xs, i, find);
      var imageName := find(xs[i]);
      if IsHit(imageName) {
        mapped := mapped + [(xs[i], imageName.value)];
      } else {
        unmapped := unmapped + [xs[i]];
      }
    }
    assert xs[..|xs|] == xs;
    PartitionCounts(xs, find);
  }
}
