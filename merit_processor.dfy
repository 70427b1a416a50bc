/** `scout_anki/merit_badges/processor.py`: the merit-badge processor's
    defaults, mapping step and summary. */
module MeritProcessor {
  import opened Wrappers
  import opened Images
  import opened Partition
  import opened Summaries
  import opened Badges
  import opened Pipeline
  import opened Seqs
  import Identifiers
  import Decks
  import MeritMapping

  const MeritDefaults: Defaults := Defaults("merit_badges.apkg", "Merit Badges", "Merit Badge Quiz")

  function BadgeFilename(b: Badge): Option<string>
  {
    b.imageFilename
  }

  /** `map_content_to_images(content, images)`: exactly what
      `map_content_by_image_filename` returns for the badges. */
  method MapContentToImages(content: seq<Badge>, images: Index)
    returns (mapped: seq<(Badge, string)>, unmapped: seq<Badge>)
    ensures mapped == MappedPart(content, FilenameMatcher(BadgeFilename, images))
    ensures unmapped == UnmappedPart(content, FilenameMatcher(BadgeFilename, images))
    ensures |mapped| + |unmapped| == |content|
    ensures forall k :: 0 <= k < |mapped| ==>
              mapped[k].0.imageFilename == Some(mapped[k].1) && mapped[k].1 in KeySet(images)
  {
    mapped, unmapped := MapContentByImageFilename(content, BadgeFilename, images);
  }

  /** `create_mapping_summary(...)`: counts of the inputs, unused images, and
      for every unmapped badge its name and its raw `image_filename`. */
  method CreateMappingSummary(content: seq<Badge>, images: Index,
                              mapped: seq<(Badge, string)>, unmapped: seq<Badge>)
    returns (s: Summary)
    ensures s.totalContent == |content| && s.totalImages == |images|
    ensures s.mapped == |mapped| && s.unmapped == |unmapped|
    ensures s.unusedImages == |UnusedImages(images, mapped)|
    ensures |s.missing| == |unmapped|
    ensures forall k :: 0 <= k < |unmapped| ==>
              s.missing[k] == Missing(unmapped[k].name, unmapped[k].imageFilename)
  {
    s := MappingSummary(content, images, mapped, unmapped, MeritMapping.BadgeName, BadgeFilename);
  }

  /** `create_deck(...)`, which is `create_merit_badge_deck`, as `build_deck`
      sees it: the number of notes of the deck, or the exception raised. The
      deck is built exactly when every pair's image is in the index and copies
      and every name has a slug; it then holds one note per pair; otherwise
      the first pair that fails gives the error. */
  function CreateDeck(mapped: seq<(Badge, string)>, images: Index, tempDir: string, copyOk: (string, string) -> bool)
    : (r: Result<nat, Decks.DeckError>)
    ensures r.Success? <==>
              forall k :: 0 <= k < |mapped| ==>
                && mapped[k].1 in KeySet(images)
                && copyOk(Lookup(images, mapped[k].1).value, Decks.PathJoin(tempDir, mapped[k].1))
                && Identifiers.Slug(mapped[k].0.name).Success?
    ensures r.Success? ==> r.value == |mapped|
    ensures var first := FirstWhere(mapped, Decks.StepFails(Decks.MeritStep(images, tempDir, copyOk)));
            r.Failure? ==> first.Some? && r.error == Decks.MeritPair(mapped[first.value], images, tempDir, copyOk).error
  {
    var step := Decks.MeritStep(images, tempDir, copyOk);
    Decks.MeritBuildSucceedsIff(mapped, images, tempDir, copyOk);
    Decks.BuildNotesOutcome(mapped, step);
    match Decks.BuildNotes(mapped, step)
    case Success(built) =>
      Decks.BuildNotesContents(mapped, step);
      Success(|built.0|)
    case Failure(e) => Failure(e)
  }

  /** A mapped badge whose name has no letter or digit (say `"???"`) makes
      `create_deck` raise the `ValueError` of `slug`, so `build_deck` writes
      no package. */
  lemma UnsluggableNameStopsBuild(b: Badge, imageName: string, images: Index, tempDir: string,
                                  copyOk: (string, string) -> bool)
    requires imageName in KeySet(images) && copyOk(Lookup(images, imageName).value, Decks.PathJoin(tempDir, imageName))
    requires Identifiers.Slug(b.name).Failure?
    ensures CreateDeck([(b, imageName)], images, tempDir, copyOk) == Failure(Decks.EmptyNameSlug(b.name))
  {
    var first := FirstWhere([(b, imageName)], Decks.StepFails(Decks.MeritStep(images, tempDir, copyOk)));
    assert first == Some(0);
  }

  /** `build_deck(...)` of the merit-badge processor: its defaults, its
      mapping and `CreateDeck`. A written package holds one note per mapped
      badge; a badge the deck cannot be made for ends the build with that
      error and nothing written. */
  method BuildMeritDeck(opts: Options, content: seq<Badge>, images: Index, tempDir: string,
                        copyOk: (string, string) -> bool)
    returns (outcome: Outcome<Decks.DeckError>, trace: seq<Step>)
    ensures var mapped := MappedPart(content, FilenameMatcher(BadgeFilename, images));
            && (outcome.BuildFailed? <==>
                  content != [] && images != [] && mapped != [] && !opts.dryRun
                  && CreateDeck(mapped, images, tempDir, copyOk).Failure?)
            && (outcome.PackageWritten? ==> |trace| == 4 && trace[1].DeckCreated? && trace[1].notes == |mapped|)
  {
    outcome, trace := BuildDeck(opts, MeritDefaults, content, images, FilenameMatcher(BadgeFilename, images),
                                MeritMapping.BadgeName, BadgeFilename, m => CreateDeck(m, images, tempDir, copyOk));
  }
}
