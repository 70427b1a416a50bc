/** The image index of `scout_anki/image_utils.py`: discovery of image files
    and the mapping of records to images by their `image_filename`. */
module Images {
  import opened Wrappers
  import opened Seqs
  import Text
  import opened Partition

  /** A path met while walking a directory, and whether it is a regular file. */
  datatype FileEntry = FileEntry(path: string, isFile: bool)

  /** One `basename -> path` item of the index. */
  datatype Entry = Entry(name: string, path: string)

  /** A Python dict from image basename to path, as its items in insertion
      order. Every index the program builds has distinct names. */
  type Index = seq<Entry>

  function KeySet(idx: Index): set<string>
  {
    set k | 0 <= k < |idx| :: idx[k].name
  }

  predicate DistinctKeys(idx: Index)
  {
    forall i, j :: 0 <= i < j < |idx| ==> idx[i].name != idx[j].name
  }

  /** Where `name` sits in the index. */
  function Position(idx: Index, name: string): (r: Option<nat>)
    ensures r.Some? ==> r.value < |idx| && idx[r.value].name == name
    ensures r.Some? ==> forall j :: 0 <= j < r.value ==> idx[j].name != name
    ensures r.None? <==> name !in KeySet(idx)
  {
    FirstWhere(idx, (e: Entry) => e.name == name)
  }

  /** `images.get(name)`. */
  function Lookup(idx: Index, name: string): (r: Option<string>)
    ensures r.Some? <==> name in KeySet(idx)
    ensures DistinctKeys(idx) ==> forall k :: 0 <= k < |idx| && idx[k].name == name ==> r == Some(idx[k].path)
  {
    match Position(idx, name)
    case Some(k) => Some(idx[k].path)
    case None => None
  }

  /** `images[name] = path`: a new name goes to the end, an existing name keeps
      its place and takes the new path. */
  function Put(idx: Index, name: string, path: string): (r: Index)
    ensures KeySet(r) == KeySet(idx) + {name}
    ensures |r| == if name in KeySet(idx) then |idx| else |idx| + 1
    ensures DistinctKeys(idx) ==> DistinctKeys(r)
  {
    match Position(idx, name)
    case Some(k) =>
      var r := idx[k := Entry(name, path)];
      assert KeySet(r) == KeySet(idx) by {
        forall n | n in KeySet(idx) ensures n in KeySet(r) {
          var j :| 0 <= j < |idx| && idx[j].name == n;
          assert r[j].name == n;
        }
      }
      r
    case None =>
      var r := idx + [Entry(name, path)];
      assert KeySet(r) == KeySet(idx) + {name} by {
        assert r[|idx|].name == name;
        forall n | n in KeySet(idx) ensures n in KeySet(r) {
          var j :| 0 <= j < |idx| && idx[j].name == n;
          assert r[j].name == n;
        }
      }
      r
  }

  /** `images[name] = path` keeps every existing key in its place and puts a
      new key last. */
  lemma PutShape(idx: Index, name: string, path: string)
    ensures forall k :: 0 <= k < |idx| ==> Put(idx, name, path)[k].name == idx[k].name
    ensures name !in KeySet(idx) ==> Put(idx, name, path)[|idx|] == Entry(name, path)
  {
  }

  /** After `images[name] = path`, `name` gives `path` and every other name
      gives what it gave before. */
  lemma PutLookup(idx: Index, name: string, path: string)
    requires DistinctKeys(idx)
    ensures Lookup(Put(idx, name, path), name) == Some(path)
    ensures forall n :: n != name ==> Lookup(Put(idx, name, path), n) == Lookup(idx, n)
  {
  }

  /** `IMAGE_EXTENSIONS`. */
  const ImageExtensions: set<string> := {".jpg", ".jpeg", ".png", ".gif", ".webp"}

  /** `path.suffix.lower()`. */
  function Extension(f: FileEntry): string
  {
    Text.Lower(Text.Suffix(Text.Basename(f.path)))
  }

  /** A regular file whose lower-cased suffix is an image extension. */
  predicate IsImageFile(f: FileEntry)
  {
    f.isFile && Extension(f) in ImageExtensions
  }

  /** `f` is accepted and is stored under `name`. */
  predicate Provides(f: FileEntry, accept: FileEntry -> bool, name: string)
  {
    accept(f) && Text.Basename(f.path) == name
  }

  /** The index built from the accepted files, in walk order, keyed by
      basename; a later file overwrites an earlier one of the same basename. */
  function Discovered(files: seq<FileEntry>, accept: FileEntry -> bool): (r: Index)
    ensures DistinctKeys(r)
  {
    if |files| == 0 then []
    else
      var prev := Discovered(files[..|files| - 1], accept);
      var f := files[|files| - 1];
      if accept(f) then Put(prev, Text.Basename(f.path), f.path) else prev
  }

  lemma DiscoveredSnoc(files: seq<FileEntry>, i: nat, accept: FileEntry -> bool)
    requires i < |files|
    ensures Discovered(files[..i + 1], accept) ==
            if accept(files[i]) then Put(Discovered(files[..i], accept), Text.Basename(files[i].path), files[i].path)
            else Discovered(files[..i], accept)
  {
    assert files[..i + 1][..i] == files[..i];
  }

  /** `discover_images(directory)` over the paths the directory walk yields. */
  method DiscoverImages(files: seq<FileEntry>) returns (images: Index)
    ensures images == Discovered(files, IsImageFile)
    ensures DistinctKeys(images)
  {
    images := [];
    for i := 0 to |files|
      invariant images == Discovered(files[..i], IsImageFile)
    {
      DiscoveredSnoc(files, i, IsImageFile);
      var f := files[i];
      if f.isFile && Extension(f) in ImageExtensions {
        images := Put(images, Text.Basename(f.path), f.path);
      }
    }
    assert files[..|files|] == files;
  }

  /** A name is a key of the index exactly when some accepted file has that basename. */
  lemma {:induction false} DiscoveredKeys(files: seq<FileEntry>, accept: FileEntry -> bool, name: string)
    ensures name in KeySet(Discovered(files, accept)) <==> exists i :: 0 <= i < |files| && Provides(files[i], accept, name)
  {
    if |files| > 0 {
      var n := |files| - 1;
      DiscoveredKeys(files[..n], accept, name);
      if exists i :: 0 <= i < |files| && Provides(files[i], accept, name) {
        var i :| 0 <= i < |files| && Provides(files[i], accept, name);
        if i < n {
          assert files[..n][i] == files[i];
        }
      }
      if exists i :: 0 <= i < n && Provides(files[..n][i], accept, name) {
        var i :| 0 <= i < n && Provides(files[..n][i], accept, name);
        assert files[i] == files[..n][i];
      }
    }
  }

  /** The path stored under a basename is the one of the last accepted file
      with that basename. */
  lemma {:induction false} DiscoveredLastWins(files: seq<FileEntry>, accept: FileEntry -> bool, i: nat)
    requires i < |files| && accept(files[i])
    requires forall j :: i < j < |files| ==> !Provides(files[j], accept, Text.Basename(files[i].path))
    ensures Lookup(Discovered(files, accept), Text.Basename(files[i].path)) == Some(files[i].path)
  {
    var n := |files| - 1;
    var name := Text.Basename(files[i].path);
    if i < n {
      assert files[..n][i] == files[i];
      DiscoveredLastWins(files[..n], accept, i);
      assert !Provides(files[n], accept, name);
    }
  }

  /** `images.update(other)`: the items of `other` assigned one by one. */
  function Update(idx: Index, other: Index): (r: Index)
  {
    if |other| == 0 then idx
    else
      var e := other[|other| - 1];
      Put(Update(idx, other[..|other| - 1]), e.name, e.path)
  }

  lemma KeySetSnoc(idx: Index, e: Entry)
    ensures KeySet(idx + [e]) == KeySet(idx) + {e.name}
  {
    var s := idx + [e];
    assert s[|idx|] == e;
    forall x | x in KeySet(idx) ensures x in KeySet(s) {
      var j :| 0 <= j < |idx| && idx[j].name == x;
      assert s[j] == idx[j];
    }
  }

  lemma KeySetLast(idx: Index)
    requires |idx| > 0
    ensures KeySet(idx) == KeySet(idx[..|idx| - 1]) + {idx[|idx| - 1].name}
  {
    var init := idx[..|idx| - 1];
    forall x | x in KeySet(init) ensures x in KeySet(idx) {
      var j :| 0 <= j < |init| && init[j].name == x;
      assert idx[j] == init[j];
    }
    forall x | x in KeySet(idx) && x != idx[|idx| - 1].name ensures x in KeySet(init) {
      var j :| 0 <= j < |idx| && idx[j].name == x;
      assert init[j] == idx[j];
    }
  }

  /** An update leaves distinct keys. */
  lemma {:induction false} UpdateDistinct(idx: Index, other: Index)
    requires DistinctKeys(idx)
    ensures DistinctKeys(Update(idx, other))
  {
    if |other| > 0 {
      UpdateDistinct(idx, other[..|other| - 1]);
    }
  }

  /** The keys after an update are the keys of both indexes. */
  lemma {:induction false} UpdateKeys(idx: Index, other: Index)
    ensures KeySet(Update(idx, other)) == KeySet(idx) + KeySet(other)
  {
    if |other| > 0 {
      var n := |other| - 1;
      var init, e := other[..n], other[n];
      var prev := Update(idx, init);
      assert KeySet(Update(idx, other)) == KeySet(prev) + {e.name} by {
        assert Update(idx, other) == Put(prev, e.name, e.path);
      }
      KeySetLast(other);
      UpdateKeys(idx, init);
    }
  }

  /** After an update the names of `other` take its paths; every other name
      keeps the path it had. */
  lemma {:induction false} UpdateLookup(idx: Index, other: Index, name: string)
    requires DistinctKeys(idx) && DistinctKeys(other)
    ensures Lookup(Update(idx, other), name) ==
            if name in KeySet(other) then Lookup(other, name) else Lookup(idx, name)
  {
    if |other| > 0 {
      var n := |other| - 1;
      var init, e := other[..n], other[n];
      var prev := Update(idx, init);
      assert other == init + [e];
      assert DistinctKeys(init);
      LookupSnoc(init, e, name);
      KeySetSnoc(init, e);
      UpdateDistinct(idx, init);
      UpdateLookup(idx, init, name);
      assert Lookup(Update(idx, other), name) == if name == e.name then Some(e.path) else Lookup(prev, name) by {
        assert Update(idx, other) == Put(prev, e.name, e.path);
        PutLookup(prev, e.name, e.path);
      }
    }
  }

  /** In an index with distinct keys, the last item answers for its own name
      and the others for theirs. */
  lemma LookupSnoc(init: Index, e: Entry, name: string)
    requires DistinctKeys(init + [e])
    ensures Lookup(init + [e], name) == if name == e.name then Some(e.path) else Lookup(init, name)
  {
    var all := init + [e];
    assert all[|init|] == e;
    assert forall i :: 0 <= i < |init| ==> all[i] == init[i];
    if name != e.name && name in KeySet(init) {
      var j :| 0 <= j < |init| && init[j].name == name;
      assert all[j] == init[j];
    }
  }

  /** The record's `image_filename` when it is non-empty and a key of the index. */
  function MatchFilename(filename: Option<string>, images: Index): (r: Option<string>)
    ensures r.Some? <==> filename.Some? && filename.value != "" && filename.value in KeySet(images)
    ensures r.Some? ==> r == filename
  {
    if filename.Some? && filename.value != "" && Lookup(images, filename.value).Some? then filename else None
  }

  /** The lookup `map_content_by_image_filename` performs for each record. */
  function FilenameMatcher<T>(filenameOf: T -> Option<string>, images: Index): T -> Option<string>
  {
    x => MatchFilename(filenameOf(x), images)
  }

  /** `map_content_by_image_filename(content, images)`: a record is mapped,
      under exactly its own `image_filename`, when that name is a key of the
      index; the split keeps the input order. */
  method MapContentByImageFilename<T>(content: seq<T>, filenameOf: T -> Option<string>, images: Index)
    returns (mapped: seq<(T, string)>, unmapped: seq<T>)
    ensures mapped == MappedPart(content, FilenameMatcher(filenameOf, images))
    ensures unmapped == UnmappedPart(content, FilenameMatcher(filenameOf, images))
    ensures |mapped| + |unmapped| == |content|
    ensures forall k :: 0 <= k < |mapped| ==>
              filenameOf(mapped[k].0) == Some(mapped[k].1) && mapped[k].1 in KeySet(images)
    ensures forall k :: 0 <= k < |unmapped| ==>
              var f := filenameOf(unmapped[k]); f.None? || f.value == "" || f.value !in KeySet(images)
  {
    mapped, unmapped := PartitionBy(content, FilenameMatcher(filenameOf, images));
  }
}
