/** `scout_anki/cub_adventures/processor.py`: the adventure processor's
    defaults, mapping step and summary. Mapping goes by `image_filename`
    only; the fuzzy search of module FuzzyMapping is not used here. */
module AdventureProcessor {
  import opened Wrappers
  import opened Images
  import opened Partition
  import opened Summaries
  import opened Adventures
  import opened Pipeline
  import opened Seqs
  import Decks
  import FuzzyMapping

  const AdventureDefaults: Defaults :=
    Defaults("cub_scout_adventure_image_trainer.apkg", "Cub Scout Adventure Image Trainer", "Cub Scout Adventure Quiz")

  function AdventureFilename(a: Adventure): Option<string>
  {
    a.imageFilename
  }

  /** `map_content_to_images(content, images)`: exactly what
      `map_content_by_image_filename` returns for the adventures. */
  method MapContentToImages(content: seq<Adventure>, images: Index)
    returns (mapped: seq<(Adventure, string)>, unmapped: seq<Adventure>)
    ensures mapped == MappedPart(content, FilenameMatcher(AdventureFilename, images))
    ensures unmapped == UnmappedPart(content, FilenameMatcher(AdventureFilename, images))
    ensures |mapped| + |unmapped| == |content|
    ensures forall k :: 0 <= k < |mapped| ==>
              mapped[k].0.imageFilename == Some(mapped[k].1) && mapped[k].1 in KeySet(images)
  {
    mapped, unmapped := MapContentByImageFilename(content, AdventureFilename, images);
  }

  /** `create_mapping_summary(...)`: counts of the inputs, unused images, and
      for every unmapped adventure `"name (rank)"` with its raw
      `image_filename` (never the slug fallback: the attribute always exists). */
  method CreateMappingSummary(content: seq<Adventure>, images: Index,
                              mapped: seq<(Adventure, string)>, unmapped: seq<Adventure>)
    returns (s: Summary)
    ensures s.totalContent == |content| && s.totalImages == |images|
    ensures s.mapped == |mapped| && s.unmapped == |unmapped|
    ensures s.unusedImages == |UnusedImages(images, mapped)|
    ensures |s.missing| == |unmapped|
    ensures forall k :: 0 <= k < |unmapped| ==>
              s.missing[k] == Missing(unmapped[k].name + " (" + unmapped[k].rank + ")", unmapped[k].imageFilename)
  {
    s := MappingSummary(content, images, mapped, unmapped, FuzzyMapping.DisplayName, AdventureFilename);
  }

  /** The mapping of the test suite's example: an adventure whose
      `image_filename` is `jungle.png` maps to that image when it is in the
      index, whatever its name. */
  lemma JungleExample(a: Adventure, images: Index)
    requires a.imageFilename == Some("jungle.png") && "jungle.png" in KeySet(images)
    ensures MappedPart([a], FilenameMatcher(AdventureFilename, images)) == [(a, "jungle.png")]
  {
    assert [a][..0] == [];
    assert AdventureFilename(a) == Some("jungle.png");
    assert MatchFilename(Some("jungle.png"), images) == Some("jungle.png");
    assert FilenameMatcher(AdventureFilename, images)(a) == Some("jungle.png");
  }

  /** `create_deck(...)`, which is `create_adventure_deck`, as `build_deck`
      sees it: the number of notes of the deck, or the `KeyError` raised. The
      deck is built exactly when every image name is in the index; it then
      holds one note per pair whose image copies, which can be fewer than
      the pairs; otherwise the first missing name gives the error. */
  function CreateDeck(mapped: seq<(Adventure, string)>, images: Index, tempDir: string,
                      pyHash: string -> int, copyOk: (string, string) -> bool)
    : (r: Result<nat, Decks.DeckError>)
    ensures r.Success? <==> forall k :: 0 <= k < |mapped| ==> mapped[k].1 in KeySet(images)
    ensures r.Success? ==> r.value == |Filter(mapped, Decks.Copies(images, tempDir, copyOk))| && r.value <= |mapped|
    ensures var first := FirstWhere(mapped, Decks.MissesImage(images));
            r.Failure? ==> first.Some? && r.error == Decks.MissingImage(mapped[first.value].1)
  {
    Decks.AdventureBuildSpec(mapped, images, tempDir, pyHash, copyOk);
    match Decks.AdventureBuild(mapped, images, tempDir, pyHash, copyOk)
    case Success(built) => Success(|built.0|)
    case Failure(e) => Failure(e)
  }

  /** A pair whose image is in the index but fails to copy adds no note, and
      the build goes on: the deck is smaller than the mapped list. */
  lemma FailedCopyDropsNote(a: Adventure, imageName: string, images: Index, tempDir: string,
                            pyHash: string -> int, copyOk: (string, string) -> bool)
    requires imageName in KeySet(images) && !copyOk(Lookup(images, imageName).value, Decks.PathJoin(tempDir, imageName))
    ensures CreateDeck([(a, imageName)], images, tempDir, pyHash, copyOk) == Success(0)
  {
    assert [(a, imageName)][..0] == [];
  }

  /** `build_deck(...)` of the adventure processor: its defaults, its
      mapping and `CreateDeck`. A written package holds one note per mapped
      adventure whose image copies, no more than were mapped. */
  method BuildAdventureDeck(opts: Options, content: seq<Adventure>, images: Index, tempDir: string,
                            pyHash: string -> int, copyOk: (string, string) -> bool)
    returns (outcome: Outcome<Decks.DeckError>, trace: seq<Step>)
    ensures var mapped := MappedPart(content, FilenameMatcher(AdventureFilename, images));
            && (outcome.BuildFailed? <==>
                  content != [] && images != [] && mapped != [] && !opts.dryRun
                  && CreateDeck(mapped, images, tempDir, pyHash, copyOk).Failure?)
            && (outcome.PackageWritten? ==>
                  && |trace| == 4 && trace[1].DeckCreated?
                  && trace[1].notes == |Filter(mapped, Decks.Copies(images, tempDir, copyOk))|
                  && trace[1].notes <= |mapped|)
  {
    outcome, trace := BuildDeck(opts, AdventureDefaults, content, images, FilenameMatcher(AdventureFilename, images),
                                FuzzyMapping.DisplayName, AdventureFilename, m => CreateDeck(m, images, tempDir, pyHash, copyOk));
  }
}
