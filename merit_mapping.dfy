/** `scout_anki/merit_badges/mapping.py`: mapping badges to images by their
    `image_filename`, and the summary of that mapping. */
module MeritMapping {
  import opened Wrappers
  import opened Images
  import opened Partition
  import opened Summaries
  import opened Badges

  /** `find_image_for_badge(badge, images)`: the badge's own `image_filename`
      when it is non-empty and a key of the index, else `None`. */
  function FindImageForBadge(b: Badge, images: Index): (r: Option<string>)
    ensures r.Some? <==> b.imageFilename.Some? && b.imageFilename.value != "" && b.imageFilename.value in KeySet(images)
    ensures r.Some? ==> r == b.imageFilename
  {
    MatchFilename(b.imageFilename, images)
  }

  function BadgeFinder(images: Index): Badge -> Option<string>
  {
    (b: Badge) => FindImageForBadge(b, images)
  }

  /** `map_badges_to_images(badges, images)`: a stable split; every mapped
      image name is the badge's own `image_filename` and a key of the index. */
  method MapBadgesToImages(badges: seq<Badge>, images: Index)
    returns (mapped: seq<(Badge, string)>, unmapped: seq<Badge>)
    ensures mapped == MappedPart(badges, BadgeFinder(images))
    ensures unmapped == UnmappedPart(badges, BadgeFinder(images))
    ensures |mapped| + |unmapped| == |badges|
    ensures forall k :: 0 <= k < |mapped| ==>
              mapped[k].0.imageFilename == Some(mapped[k].1) && mapped[k].1 in KeySet(images)
    ensures forall k :: 0 <= k < |unmapped| ==> FindImageForBadge(unmapped[k], images).None?
  {
    mapped, unmapped := PartitionBy(badges, BadgeFinder(images));
  }

  function BadgeName(b: Badge): string
  {
    b.name
  }

  /** `getattr(badge, "image_filename", "unknown")`: a badge always has the
      attribute, so this is its `image_filename`, `None` included. */
  function BadgeExpectedImage(b: Badge): Option<string>
  {
    b.imageFilename
  }

  /** `create_mapping_summary(...)`: counts of the inputs, unused images, and
      for every unmapped badge its name and its raw `image_filename`. */
  method CreateMappingSummary(badges: seq<Badge>, images: Index,
                              mapped: seq<(Badge, string)>, unmapped: seq<Badge>)
    returns (s: Summary)
    ensures s.totalContent == |badges| && s.totalImages == |images|
    ensures s.mapped == |mapped| && s.unmapped == |unmapped|
    ensures s.unusedImages == |UnusedImages(images, mapped)|
    ensures |s.missing| == |unmapped|
    ensures forall k :: 0 <= k < |unmapped| ==>
              s.missing[k] == Missing(unmapped[k].name, unmapped[k].imageFilename)
  {
    s := MappingSummary(badges, images, mapped, unmapped, BadgeName, BadgeExpectedImage);
  }
}
