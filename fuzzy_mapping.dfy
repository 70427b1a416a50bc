/** `scout_anki/cub_adventures/mapping.py`: matching adventures to images by
    comparing the adventure's slug with the lower-cased stems of the image
    names. The same three functions appear again, unchanged, in
    `scout_anki/cub_adventures/adventure.py`. */
module FuzzyMapping {
  import opened Wrappers
  import opened Seqs
  import Text
  import opened Images
  import opened Partition
  import opened Summaries
  import opened Adventures

  /** `Path(image_name).stem.lower()`. */
  function StemKey(imageName: string): string
  {
    Text.Lower(Text.Stem(imageName))
  }

  predicate ExactMatch(slug: string, imageName: string)
  {
    StemKey(imageName) == slug
  }

  /** `slug in image_base or image_base in slug`. */
  predicate PartialMatch(slug: string, imageName: string)
  {
    Text.IsSubstring(slug, StemKey(imageName)) || Text.IsSubstring(StemKey(imageName), slug)
  }

  /** The first index, in insertion order, whose name matches exactly. */
  function FirstExact(slug: string, images: Index): (r: Option<nat>)
    ensures r.Some? ==> r.value < |images| && ExactMatch(slug, images[r.value].name)
    ensures r.Some? ==> forall j :: 0 <= j < r.value ==> !ExactMatch(slug, images[j].name)
    ensures r.None? <==> forall j :: 0 <= j < |images| ==> !ExactMatch(slug, images[j].name)
  {
    FirstWhere(images, (e: Entry) => ExactMatch(slug, e.name))
  }

  /** The first index, in insertion order, whose name matches partially. */
  function FirstPartial(slug: string, images: Index): (r: Option<nat>)
    ensures r.Some? ==> r.value < |images| && PartialMatch(slug, images[r.value].name)
    ensures r.Some? ==> forall j :: 0 <= j < r.value ==> !PartialMatch(slug, images[j].name)
    ensures r.None? <==> forall j :: 0 <= j < |images| ==> !PartialMatch(slug, images[j].name)
  {
    FirstWhere(images, (e: Entry) => PartialMatch(slug, e.name))
  }

  /** `find_adventure_image(adventure, images)` for an adventure with slug
      `slug`: the first exact stem match, else the first partial one. */
  function FindAdventureImage(slug: string, images: Index): (r: Option<string>)
    ensures r.Some? ==> r.value in KeySet(images)
  {
    match FirstExact(slug, images)
    case Some(k) => Some(images[k].name)
    case None =>
      match FirstPartial(slug, images)
      case Some(k) => Some(images[k].name)
      case None => None
  }

  lemma SubstringOfItself(s: string)
    ensures Text.IsSubstring(s, s)
  {
    assert Text.OccursAt(s, s, 0);
  }

  /** An exact match is a partial match. */
  lemma ExactIsPartial(slug: string, imageName: string)
    requires ExactMatch(slug, imageName)
    ensures PartialMatch(slug, imageName)
  {
    SubstringOfItself(slug);
  }

  /** An exact match wins over every partial match, even one that comes
      earlier in the index. */
  lemma ExactMatchPreferred(slug: string, images: Index, k: nat)
    requires k < |images| && ExactMatch(slug, images[k].name)
    requires forall j :: 0 <= j < k ==> !ExactMatch(slug, images[j].name)
    ensures FindAdventureImage(slug, images) == Some(images[k].name)
  {
    assert FirstExact(slug, images).Some?;
  }

  /** With no exact match, the first partial match in insertion order is
      returned; containment is tested in both directions. */
  lemma PartialMatchFallback(slug: string, images: Index, k: nat)
    requires forall j :: 0 <= j < |images| ==> !ExactMatch(slug, images[j].name)
    requires k < |images| && PartialMatch(slug, images[k].name)
    requires forall j :: 0 <= j < k ==> !PartialMatch(slug, images[j].name)
    ensures FindAdventureImage(slug, images) == Some(images[k].name)
  {
    assert FirstExact(slug, images).None?;
    var p := FirstPartial(slug, images);
    assert p.Some?;
    assert !(p.value < k);
    assert !(k < p.value);
  }

  /** An adventure whose slug is empty (a name made only of apostrophes)
      matches the first image of a non-empty index, whatever its name: the
      empty string is contained in every stem. */
  lemma EmptySlugMatchesFirstImage(images: Index)
    requires |images| > 0
    ensures FindAdventureImage("", images).Some?
    ensures FirstExact("", images).None? ==> FindAdventureImage("", images) == Some(images[0].name)
  {
    assert Text.OccursAt("", StemKey(images[0].name), 0);
    assert PartialMatch("", images[0].name);
  }

  /** No image is found exactly when no stem contains, or is contained in,
      the slug. */
  lemma NotFoundIffNoPartialMatch(slug: string, images: Index)
    ensures FindAdventureImage(slug, images).None? <==>
            forall j :: 0 <= j < |images| ==> !PartialMatch(slug, images[j].name)
  {
    if FirstExact(slug, images).Some? {
      ExactIsPartial(slug, images[FirstExact(slug, images).value].name);
    }
  }

  /** The lookup `map_adventures_to_images` performs for each adventure. */
  function FuzzyFinder(images: Index): Adventure -> Option<string>
  {
    (a: Adventure) => FindAdventureImage(AdventureSlug(a.name), images)
  }

  /** `map_adventures_to_images(adventures, images)`: a stable split in which
      every mapped adventure carries the name its search returned, a key of
      the index. */
  method MapAdventuresToImages(adventures: seq<Adventure>, images: Index)
    returns (mapped: seq<(Adventure, string)>, unmapped: seq<Adventure>)
    ensures mapped == MappedPart(adventures, FuzzyFinder(images))
    ensures unmapped == UnmappedPart(adventures, FuzzyFinder(images))
    ensures |mapped| + |unmapped| == |adventures|
    ensures forall k :: 0 <= k < |mapped| ==>
              FindAdventureImage(AdventureSlug(mapped[k].0.name), images) == Some(mapped[k].1)
              && mapped[k].1 in KeySet(images)
  {
    mapped, unmapped := PartitionBy(adventures, FuzzyFinder(images));
  }

  /** `f"{adventure.name} ({adventure.rank})"`. */
  function DisplayName(a: Adventure): string
  {
    a.name + " (" + a.rank + ")"
  }

  /** The image the older summary says it expected: `f"{adventure.slug}.jpg"`. */
  function ExpectedJpg(a: Adventure): Option<string>
  {
    Some(AdventureSlug(a.name) + ".jpg")
  }

  /** `create_adventure_mapping_summary(...)`: counts of the inputs, unused
      images, and for every unmapped adventure its display name and the
      `.jpg` named after its slug. */
  method CreateAdventureMappingSummary(adventures: seq<Adventure>, images: Index,
                                       mapped: seq<(Adventure, string)>, unmapped: seq<Adventure>)
    returns (s: Summary)
    ensures s.totalContent == |adventures| && s.totalImages == |images|
    ensures s.mapped == |mapped| && s.unmapped == |unmapped|
    ensures s.unusedImages == |UnusedImages(images, mapped)|
    ensures |s.missing| == |unmapped|
    ensures forall k :: 0 <= k < |unmapped| ==>
              s.missing[k].name == unmapped[k].name + " (" + unmapped[k].rank + ")"
              && s.missing[k].expected == Some(AdventureSlug(unmapped[k].name) + ".jpg")
  {
    s := MappingSummary(adventures, images, mapped, unmapped, DisplayName, ExpectedJpg);
  }
}
