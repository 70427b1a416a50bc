/** `scout_anki/cub_adventures/adventure.py`: the older adventure module. Its
    record has an `image_name` field in place of `image_filename` (the
    `imageFilename` field here), which normalisation never sets; its image
    scan reads the direct listing of `images` (`ImagesDir.direct`), does not
    check that the paths are files, and does not accept `.webp`. Its slug and id are those of
    module Adventures; its image search, mapping and summary are those of
    module FuzzyMapping. */
module LegacyAdventures {
  import opened Wrappers
  import Text
  import opened JsonValue
  import opened Images
  import opened Adventures

  /** `normalize_adventure_data(data)` of the older module. */
  function NormalizeLegacyAdventure(data: Json): (r: Result<Adventure, AdventureError>)
    ensures r.Failure? <==> !data.JObj?
    ensures r.Success? ==> r.value.imageFilename.None?
    ensures r.Success? ==> r.value == NormalizeAdventureData(data).value.(imageFilename := None)
  {
    match NormalizeAdventureData(data)
    case Success(a) => Success(a.(imageFilename := None))
    case Failure(e) => Failure(e)
  }

  const LegacyImageExtensions: set<string> := {".jpg", ".jpeg", ".png", ".gif"}

  /** A path whose lower-cased suffix is one of the four older extensions. */
  predicate IsLegacyImage(f: FileEntry)
  {
    Extension(f) in LegacyImageExtensions
  }

  /** The older filter is the shared one without `.webp` and without the
      regular-file check. */
  lemma LegacyFilterDiffers(f: FileEntry)
    ensures IsLegacyImage(f) <==> Extension(f) in ImageExtensions && Extension(f) != ".webp"
    ensures IsImageFile(f) <==> f.isFile && (IsLegacyImage(f) || Extension(f) == ".webp")
  {
    var x := Extension(f);
    assert LegacyImageExtensions == ImageExtensions - {".webp"};
  }

  /** `available_images[image_file.name] = image_file` for every accepted path, in order. */
  function PutAccepted(images: Index, paths: seq<FileEntry>): (r: Index)
    ensures DistinctKeys(images) ==> DistinctKeys(r)
  {
    if |paths| == 0 then images
    else
      var prev := PutAccepted(images, paths[..|paths| - 1]);
      var f := paths[|paths| - 1];
      if IsLegacyImage(f) then Put(prev, Text.Basename(f.path), f.path) else prev
  }

  lemma PutAcceptedSnoc(images: Index, paths: seq<FileEntry>, i: nat)
    requires i < |paths|
    ensures PutAccepted(images, paths[..i + 1]) ==
            if IsLegacyImage(paths[i]) then Put(PutAccepted(images, paths[..i]), Text.Basename(paths[i].path), paths[i].path)
            else PutAccepted(images, paths[..i])
  {
    assert paths[..i + 1][..i] == paths[..i];
  }

  /** The older walk's image step: the accepted direct children of `images`. */
  function AddLegacyImages(images: Index, dir: ImagesDir): Index
  {
    PutAccepted(images, dir.direct)
  }

  /** Scanning into an empty index is discovery with the older filter. */
  lemma {:induction false} PutAcceptedFromEmpty(paths: seq<FileEntry>)
    ensures PutAccepted([], paths) == Discovered(paths, IsLegacyImage)
  {
    if |paths| > 0 {
      PutAcceptedFromEmpty(paths[..|paths| - 1]);
    }
  }

  /** Adventures read by the older module carry no image name. */
  lemma {:induction false} LegacyHaveNoImage(files: seq<ParsedFile>)
    requires FileAdventures(files, NormalizeLegacyAdventure).Success?
    ensures forall k :: 0 <= k < |FileAdventures(files, NormalizeLegacyAdventure).value| ==>
              FileAdventures(files, NormalizeLegacyAdventure).value[k].imageFilename.None?
  {
    if |files| > 0 {
      LegacyHaveNoImage(files[..|files| - 1]);
    }
  }

  /** The image loop of one rank directory of the older module. */
  method ScanImages(before: Index, paths: seq<FileEntry>) returns (images: Index)
    ensures images == PutAccepted(before, paths)
  {
    images := before;
    for j := 0 to |paths|
      invariant images == PutAccepted(before, paths[..j])
    {
      PutAcceptedSnoc(before, paths, j);
      var imageFile := paths[j];
      if Extension(imageFile) in LegacyImageExtensions {
        images := Put(images, Text.Basename(imageFile.path), imageFile.path);
      }
    }
    assert paths[..|paths|] == paths;
  }

  /** `process_adventure_directory(directory)` of the older module. */
  method ProcessLegacyAdventureDirectory(tree: map<string, RankDir>)
    returns (r: Result<(seq<Adventure>, Index), DirectoryError>)
    ensures r == Collected(tree, RankDirs, NormalizeLegacyAdventure, AddLegacyImages)
    ensures r.Success? ==> forall k :: 0 <= k < |r.value.0| ==> r.value.0[k].imageFilename.None?
  {
    var adventures: seq<Adventure> := [];
    var availableImages: Index := [];
    for i := 0 to |RankDirs|
      invariant Collected(tree, RankDirs[..i], NormalizeLegacyAdventure, AddLegacyImages) == Success((adventures, availableImages))
      invariant forall k :: 0 <= k < |adventures| ==> adventures[k].imageFilename.None?
    {
      CollectedSnoc(tree, RankDirs, i, NormalizeLegacyAdventure, AddLegacyImages);
      var rank := RankDirs[i];
      if rank !in tree {
        continue;
      }
      var rankAdventures := ReadRankFiles(tree[rank].jsonFiles, NormalizeLegacyAdventure);
      if rankAdventures.Failure? {
        CollectedFailureSticks(tree, RankDirs, i + 1, NormalizeLegacyAdventure, AddLegacyImages);
        assert RankDirs[..|RankDirs|] == RankDirs;
        return Failure(rankAdventures.error);
      }
      LegacyHaveNoImage(tree[rank].jsonFiles);
      adventures := adventures + rankAdventures.value;
      if tree[rank].images.Some? {
        availableImages := ScanImages(availableImages, tree[rank].images.value.direct);
      }
    }
    assert RankDirs[..|RankDirs|] == RankDirs;
    r := Success((adventures, availableImages));
  }
}
