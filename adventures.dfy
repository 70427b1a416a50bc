/** `scout_anki/cub_adventures/schema.py`: the Cub Scout adventure record,
    its slug and id, and the collection of adventures and images from the
    rank directories. */
module Adventures {
  import opened Wrappers
  import opened Seqs
  import Text
  import opened JsonValue
  import opened Images

  /** An adventure; `kind` is the source's `type` field (Required/Elective). */
  datatype Adventure = Adventure(
    name: string,
    rank: string,
    kind: string,
    overview: string,
    imageFilename: Option<string>)

  /** Every space of `s` replaced by a dash. */
  function DashSpaces(s: string): (r: string)
    ensures |r| == |s|
    ensures forall k :: 0 <= k < |s| ==> r[k] == if s[k] == ' ' then '-' else s[k]
  {
    if |s| == 0 then [] else [if s[0] == ' ' then '-' else s[0]] + DashSpaces(s[1..])
  }

  predicate NotApostrophe(c: char) { c != '\'' }

  /** `name.lower().replace(" ", "-").replace("'", "")`; `AdventureSlugChar`
      and `AdventureSlugAppend` say what it does to each character. */
  function AdventureSlug(name: string): (r: string)
    ensures ' ' !in r && '\'' !in r
    ensures |r| <= |name|
    ensures forall c :: c in r ==> !Text.IsUpperAscii(c)
  {
    Filter(DashSpaces(Text.Lower(name)), NotApostrophe)
  }

  /** An apostrophe is dropped, a space becomes a dash, and every other
      character is kept, lower-cased. */
  lemma AdventureSlugChar(c: char)
    ensures AdventureSlug([c]) == if c == '\'' then "" else if c == ' ' then "-" else [Text.LowerChar(c)]
  {
    assert Text.Lower([c]) == [Text.LowerChar(c)];
    assert DashSpaces([Text.LowerChar(c)]) == [if Text.LowerChar(c) == ' ' then '-' else Text.LowerChar(c)];
  }

  /** The slug works character by character: the slug of a concatenation is
      the concatenation of the slugs. */
  lemma AdventureSlugAppend(a: string, b: string)
    ensures AdventureSlug(a + b) == AdventureSlug(a) + AdventureSlug(b)
  {
    Text.LowerAppend(a, b);
    DashSpacesAppend(Text.Lower(a), Text.Lower(b));
    FilterAppend(DashSpaces(Text.Lower(a)), DashSpaces(Text.Lower(b)), NotApostrophe);
  }

  lemma DashSpacesAppend(a: string, b: string)
    ensures DashSpaces(a + b) == DashSpaces(a) + DashSpaces(b)
  {
    assert forall k :: 0 <= k < |a + b| ==> DashSpaces(a + b)[k] == (DashSpaces(a) + DashSpaces(b))[k];
  }

  /** A name already in slug form (no upper-case letter, space or apostrophe)
      is its own slug. */
  lemma {:induction false} SlugKeepsPlainText(s: string)
    requires forall c :: c in s ==> !Text.IsUpperAscii(c) && c != ' ' && c != '\''
    ensures AdventureSlug(s) == s
  {
    assert Text.Lower(s) == s;
    assert DashSpaces(s) == s;
    FilterKeepsAll(s);
  }

  lemma {:induction false} FilterKeepsAll(s: string)
    requires '\'' !in s
    ensures Filter(s, NotApostrophe) == s
  {
    if |s| > 0 {
      FilterKeepsAll(s[1..]);
      assert s == [s[0]] + s[1..];
    }
  }

  /** The slug of a slug is the slug. */
  lemma SlugIdempotent(name: string)
    ensures AdventureSlug(AdventureSlug(name)) == AdventureSlug(name)
  {
    SlugKeepsPlainText(AdventureSlug(name));
  }

  /** `abs(hash(f"adventure:{rank}:{name}")) % 2**31`, with Python's salted
      string hash as a parameter. */
  function AdventureStableId(rank: string, name: string, pyHash: string -> int): (r: nat)
    ensures r < 0x8000_0000
  {
    var h := pyHash("adventure:" + rank + ":" + name);
    (if h < 0 then -h else h) % 0x8000_0000
  }

  /** Calling `.get` on a parsed file that is not a JSON object raises
      `AttributeError`, which nothing catches. */
  datatype AdventureError = NotAnObject

  /** `data.get(key, "")` for a text field. */
  function TextField(fields: map<string, Json>, key: string): (r: string)
    ensures key in fields && fields[key].JStr? ==> r == fields[key].s
    ensures key !in fields ==> r == ""
  {
    if key in fields && fields[key].JStr? then fields[key].s else ""
  }

  /** `data.get("image_filename")`. */
  function ImageFilenameField(fields: map<string, Json>): (r: Option<string>)
    ensures r.Some? <==> "image_filename" in fields && fields["image_filename"].JStr?
    ensures r.Some? ==> r.value == fields["image_filename"].s
  {
    if "image_filename" in fields && fields["image_filename"].JStr? then Some(fields["image_filename"].s) else None
  }

  /** `normalize_adventure_data(data)`: the four text fields default to the
      empty string and are taken as they are, without stripping. */
  function NormalizeAdventureData(data: Json): (r: Result<Adventure, AdventureError>)
    ensures r.Failure? <==> !data.JObj?
    ensures r.Success? ==>
              && r.value.name == TextField(data.fields, "adventure_name")
              && r.value.rank == TextField(data.fields, "rank_name")
              && r.value.kind == TextField(data.fields, "adventure_type")
              && r.value.overview == TextField(data.fields, "adventure_overview")
              && r.value.imageFilename == ImageFilenameField(data.fields)
  {
    match data
    case JObj(fields) =>
      Success(Adventure(
        TextField(fields, "adventure_name"),
        TextField(fields, "rank_name"),
        TextField(fields, "adventure_type"),
        TextField(fields, "adventure_overview"),
        ImageFilenameField(fields)))
    case _ => Failure(NotAnObject)
  }

  // ---------------------------------------------------------------------------
  // The rank directories.

  /** A `*.json` file of a rank directory: its name and its parsed content,
      `None` when it is not valid JSON (the `JSONDecodeError` that is caught). */
  datatype ParsedFile = ParsedFile(name: string, content: Option<Json>)

  /** The `images` subdirectory of a rank, listed two ways: `direct` is what
      `glob("*")` yields (its direct children only), `recursive` what the
      recursive glob of `discover_images` yields (every path under it, at
      any depth). */
  datatype ImagesDir = ImagesDir(direct: seq<FileEntry>, recursive: seq<FileEntry>)

  /** A rank directory: its JSON files in glob order, and its `images`
      subdirectory when that exists. */
  datatype RankDir = RankDir(jsonFiles: seq<ParsedFile>, images: Option<ImagesDir>)

  const RankDirs: seq<string> := ["lion", "tiger", "wolf", "bear", "webelos", "arrow-of-light"]

  /** The uncaught error of a file, named by the file. */
  datatype DirectoryError = BadFile(file: string)

  /** The file is read at all: not a `bobcat*` file and valid JSON. */
  predicate IsRead(f: ParsedFile)
  {
    !Text.StartsWith(f.name, "bobcat") && f.content.Some?
  }

  /** The adventures of a rank's JSON files, in order: bobcat files and
      malformed files are skipped, a file that is not an object stops the
      run, and only adventures with a non-empty name are kept. */
  function FileAdventures(files: seq<ParsedFile>, normalize: Json -> Result<Adventure, AdventureError>)
    : (r: Result<seq<Adventure>, DirectoryError>)
    ensures r.Success? ==> |r.value| <= |files|
    ensures r.Success? ==> forall k :: 0 <= k < |r.value| ==> r.value[k].name != ""
  {
    if |files| == 0 then Success([])
    else
      var f := files[|files| - 1];
      match FileAdventures(files[..|files| - 1], normalize)
      case Failure(e) => Failure(e)
      case Success(prev) =>
        if !IsRead(f) then Success(prev)
        else
          match normalize(f.content.value)
          case Failure(_) => Failure(BadFile(f.name))
          case Success(a) => Success(if a.name != "" then prev + [a] else prev)
  }

  lemma FileAdventuresSnoc(files: seq<ParsedFile>, i: nat, normalize: Json -> Result<Adventure, AdventureError>)
    requires i < |files|
    ensures FileAdventures(files[..i + 1], normalize) ==
            match FileAdventures(files[..i], normalize)
            case Failure(e) => Failure(e)
            case Success(prev) =>
              if !IsRead(files[i]) then Success(prev)
              else
                match normalize(files[i].content.value)
                case Failure(_) => Failure(BadFile(files[i].name))
                case Success(a) => Success(if a.name != "" then prev + [a] else prev)
  {
    assert files[..i + 1][..i] == files[..i];
  }

  /** A file that is skipped, a `bobcat*` file or one that is not valid JSON
      (the `JSONDecodeError` caught), contributes nothing wherever it appears,
      and the scan goes on with the files after it. */
  lemma {:induction false} UnreadFileIgnored(before: seq<ParsedFile>, f: ParsedFile, after: seq<ParsedFile>,
                                              normalize: Json -> Result<Adventure, AdventureError>)
    requires !IsRead(f)
    ensures FileAdventures(before + [f] + after, normalize) == FileAdventures(before + after, normalize)
  {
    if |after| == 0 {
      assert before + [f] + after == before + [f];
      assert (before + [f])[..|before|] == before;
      assert before + after == before;
    } else {
      var init := after[..|after| - 1];
      UnreadFileIgnored(before, f, init, normalize);
      assert (before + [f] + after)[..|before + [f] + init|] == before + [f] + init;
      assert (before + after)[..|before + init|] == before + init;
    }
  }

  /** Names are not de-duplicated: a read file with a named adventure always
      adds it, even when an equal adventure is already there. */
  lemma NamedAdventureAppended(files: seq<ParsedFile>, f: ParsedFile, normalize: Json -> Result<Adventure, AdventureError>)
    requires FileAdventures(files, normalize).Success? && IsRead(f)
    requires normalize(f.content.value).Success? && normalize(f.content.value).value.name != ""
    ensures FileAdventures(files + [f], normalize) ==
            Success(FileAdventures(files, normalize).value + [normalize(f.content.value).value])
  {
    assert (files + [f])[..|files|] == files;
  }

  /** `available_images.update(discover_images(images_dir))`: the recursive
      listing. */
  function AddRankImages(images: Index, dir: ImagesDir): Index
  {
    Update(images, Discovered(dir.recursive, IsImageFile))
  }

  /** The adventures and the image index gathered from the rank directories
      `ranks`, in that order; a rank missing from `tree` is skipped. */
  function Collected(tree: map<string, RankDir>, ranks: seq<string>,
                     normalize: Json -> Result<Adventure, AdventureError>,
                     addImages: (Index, ImagesDir) -> Index)
    : (r: Result<(seq<Adventure>, Index), DirectoryError>)
    ensures r.Success? ==> forall k :: 0 <= k < |r.value.0| ==> r.value.0[k].name != ""
  {
    if |ranks| == 0 then Success(([], []))
    else
      var rank := ranks[|ranks| - 1];
      match Collected(tree, ranks[..|ranks| - 1], normalize, addImages)
      case Failure(e) => Failure(e)
      case Success(prev) =>
        if rank !in tree then Success(prev)
        else
          match FileAdventures(tree[rank].jsonFiles, normalize)
          case Failure(e) => Failure(e)
          case Success(advs) =>
            var images := if tree[rank].images.Some? then addImages(prev.1, tree[rank].images.value) else prev.1;
            Success((prev.0 + advs, images))
  }

  lemma CollectedSnoc(tree: map<string, RankDir>, ranks: seq<string>, i: nat,
                      normalize: Json -> Result<Adventure, AdventureError>,
                      addImages: (Index, ImagesDir) -> Index)
    requires i < |ranks|
    ensures Collected(tree, ranks[..i + 1], normalize, addImages) ==
            match Collected(tree, ranks[..i], normalize, addImages)
            case Failure(e) => Failure(e)
            case Success(prev) =>
              if ranks[i] !in tree then Success(prev)
              else
                match FileAdventures(tree[ranks[i]].jsonFiles, normalize)
                case Failure(e) => Failure(e)
                case Success(advs) =>
                  var images := if tree[ranks[i]].images.Some? then addImages(prev.1, tree[ranks[i]].images.value) else prev.1;
                  Success((prev.0 + advs, images))
  {
    assert ranks[..i + 1][..i] == ranks[..i];
  }

  /** Ranks are visited in order: the adventures of earlier ranks come first. */
  lemma {:induction false} CollectedInRankOrder(tree: map<string, RankDir>, first: seq<string>, rest: seq<string>,
                                                normalize: Json -> Result<Adventure, AdventureError>,
                                                addImages: (Index, ImagesDir) -> Index)
    requires Collected(tree, first + rest, normalize, addImages).Success?
    ensures Collected(tree, first, normalize, addImages).Success?
    ensures Collected(tree, first, normalize, addImages).value.0
            <= Collected(tree, first + rest, normalize, addImages).value.0
  {
    if |rest| > 0 {
      var init := rest[..|rest| - 1];
      assert (first + rest)[..|first + init|] == first + init;
      CollectedInRankOrder(tree, first, init, normalize, addImages);
    } else {
      assert first + rest == first;
    }
  }

  /** An image of a later rank directory replaces an earlier one with the same
      basename; other names keep their path. */
  lemma LaterRankImagesWin(tree: map<string, RankDir>, ranks: seq<string>, rank: string, name: string)
    requires Collected(tree, ranks + [rank], NormalizeAdventureData, AddRankImages).Success?
    requires rank in tree && tree[rank].images.Some?
    requires Collected(tree, ranks, NormalizeAdventureData, AddRankImages).Success?
    requires DistinctKeys(Collected(tree, ranks, NormalizeAdventureData, AddRankImages).value.1)
    ensures var before := Collected(tree, ranks, NormalizeAdventureData, AddRankImages).value.1;
            var own := Discovered(tree[rank].images.value.recursive, IsImageFile);
            var after := Collected(tree, ranks + [rank], NormalizeAdventureData, AddRankImages).value.1;
            Lookup(after, name) == if name in KeySet(own) then Lookup(own, name) else Lookup(before, name)
  {
    assert (ranks + [rank])[..|ranks|] == ranks;
    var before := Collected(tree, ranks, NormalizeAdventureData, AddRankImages).value.1;
    UpdateLookup(before, Discovered(tree[rank].images.value.recursive, IsImageFile), name);
  }

  /** The JSON-file loop of one rank directory. */
  method ReadRankFiles(files: seq<ParsedFile>, normalize: Json -> Result<Adventure, AdventureError>)
    returns (r: Result<seq<Adventure>, DirectoryError>)
    ensures r == FileAdventures(files, normalize)
  {
    var rankAdventures: seq<Adventure> := [];
    for j := 0 to |files|
      invariant FileAdventures(files[..j], normalize) == Success(rankAdventures)
    {
      FileAdventuresSnoc(files, j, normalize);
      var f := files[j];
      if Text.StartsWith(f.name, "bobcat") || f.content.None? {
        continue;
      }
      var adventure := normalize(f.content.value);
      if adventure.Failure? {
        FailureSticks(files, j + 1, normalize);
        return Failure(BadFile(f.name));
      }
      if adventure.value.name != "" {
        rankAdventures := rankAdventures + [adventure.value];
      }
    }
    assert files[..|files|] == files;
    r := Success(rankAdventures);
  }

  /** `process_adventure_directory(directory)` over the rank directories that
      exist: the JSON files of each rank, then its images. */
  method ProcessAdventureDirectory(tree: map<string, RankDir>)
    returns (r: Result<(seq<Adventure>, Index), DirectoryError>)
    ensures r == Collected(tree, RankDirs, NormalizeAdventureData, AddRankImages)
  {
    var adventures: seq<Adventure> := [];
    var availableImages: Index := [];
    for i := 0 to |RankDirs|
      invariant Collected(tree, RankDirs[..i], NormalizeAdventureData, AddRankImages) == Success((adventures, availableImages))
    {
      CollectedSnoc(tree, RankDirs, i, NormalizeAdventureData, AddRankImages);
      var rank := RankDirs[i];
      if rank !in tree {
        continue;
      }
      var rankAdventures := ReadRankFiles(tree[rank].jsonFiles, NormalizeAdventureData);
      if rankAdventures.Failure? {
        CollectedFailureSticks(tree, RankDirs, i + 1, NormalizeAdventureData, AddRankImages);
        assert RankDirs[..|RankDirs|] == RankDirs;
        return Failure(rankAdventures.error);
      }
      adventures := adventures + rankAdventures.value;
      if tree[rank].images.Some? {
        var rankImages := DiscoverImages(tree[rank].images.value.recursive);
        availableImages := Update(availableImages, rankImages);
      }
    }
    assert RankDirs[..|RankDirs|] == RankDirs;
    r := Success((adventures, availableImages));
  }

  /** Once a prefix of the files fails, the whole list fails the same way. */
  lemma {:induction false} FailureSticks(files: seq<ParsedFile>, j: nat, normalize: Json -> Result<Adventure, AdventureError>)
    requires j <= |files| && FileAdventures(files[..j], normalize).Failure?
    ensures FileAdventures(files, normalize) == FileAdventures(files[..j], normalize)
  {
    if j < |files| {
      var n := |files| - 1;
      assert files[..n][..j] == files[..j];
      FailureSticks(files[..n], j, normalize);
      assert files[..n] == files[..|files| - 1];
    } else {
      assert files[..j] == files;
    }
  }

  /** Once the ranks up to `i` fail, the whole run fails the same way. */
  lemma {:induction false} CollectedFailureSticks(tree: map<string, RankDir>, ranks: seq<string>, i: nat,
                                                  normalize: Json -> Result<Adventure, AdventureError>,
                                                  addImages: (Index, ImagesDir) -> Index)
    requires i <= |ranks| && Collected(tree, ranks[..i], normalize, addImages).Failure?
    ensures Collected(tree, ranks, normalize, addImages) == Collected(tree, ranks[..i], normalize, addImages)
  {
    if i < |ranks| {
      var n := |ranks| - 1;
      assert ranks[..n][..i] == ranks[..i];
      CollectedFailureSticks(tree, ranks[..n], i, normalize, addImages);
    } else {
      assert ranks[..i] == ranks;
    }
  }
}
