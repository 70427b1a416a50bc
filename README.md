# scout-anki in Dafny

A Dafny model of the logic at the core of `scout_anki`, a tool that turns scraped Scout merit badge and Cub Scout adventure data into Anki flash-card decks. The model covers the logic between reading the files and writing the `.apkg` package:

- **Identifiers.** `slug` is the slug normaliser, with its `ValueError` on an empty result. `stable_id` is the 40-bit id taken from a SHA-1 digest.
- **Badge normalisation.** `normalize_badge_data` accepts a loosely shaped JSON value and produces badge records. It picks each field by a key priority list and de-duplicates by name, keeping the first. `merge_badge_lists` does the same de-duplication across lists. There are two copies of the normaliser.
- **Adventure normalisation.** This includes the rank-directory walk of `process_adventure_directory`, in its current and its older form.
- **The image index.** `discover_images` builds it. It is a dictionary keyed by basename in which a later file replaces an earlier one in place.
- **Two content-to-image mapping strategies.**
  - The filename strategy maps a record exactly when its `image_filename` is a key of the index.
  - The older fuzzy strategy compares an adventure's slug with the lower-cased stems of the image names. It takes the first match in insertion order, preferring an exact match.
- **Mapping summaries.** Counts, unused images and missing-image details, for each processor.
- **`DeckProcessor.build_deck`.** Defaults are substituted, then the fatal outcomes are checked in a fixed order: no content, no images, nothing mapped, dry run, an exception of `create_deck`.
- **Note construction.** The fields and GUIDs of merit badge and adventure notes, the note and media loops of the two deck builders, and the 500-character overview cut.

## Modules

| module | file | models |
|---|---|---|
| `Wrappers`, `Seqs`, `Text` | wrappers.dfy, seqs.dfy, text.dfy | `Option`/`Result`; first-match search and filter; the Python string operations the source uses (`strip`, ASCII `lower`, `in`, `startswith`, basename, pathlib stem and suffix) |
| `JsonValue` | json.dfy | parsed JSON values, Python truthiness, `str()` and the "first truthy key" search |
| `Identifiers` | identifiers.dfy | `slug` and `stable_id` of `scout_anki/schema.py` |
| `Badges` | badges.dfy | `Badge`, `normalize_badge_data`, `merge_badge_lists` of `scout_anki/schema.py` |
| `MeritBadgeSchema` | merit_schema.dfy | the copy of `normalize_badge_data` in `scout_anki/merit_badges/schema.py` |
| `Partition` | partition.dfy | the mapped/unmapped split every mapping function performs |
| `Images` | images.dfy | the image index (`dict[str, Path]` as an ordered list of distinct keys), `discover_images`, `dict.update`, `map_content_by_image_filename` |
| `Summaries` | summaries.dfy | the mapping summary record and the shared summary loop |
| `Adventures` | adventures.dfy | `Adventure`, its `slug` and `stable_id`, `normalize_adventure_data`, `process_adventure_directory` |
| `LegacyAdventures` | legacy_adventures.dfy | the older `scout_anki/cub_adventures/adventure.py` normaliser and directory walk |
| `FuzzyMapping` | fuzzy_mapping.dfy | `find_adventure_image`, `map_adventures_to_images`, `create_adventure_mapping_summary` |
| `MeritMapping` | merit_mapping.dfy | `scout_anki/merit_badges/mapping.py` |
| `MeritProcessor`, `AdventureProcessor` | merit_processor.dfy, adventure_processor.dfy | the two `DeckProcessor` subclasses: defaults, mapping, summary, `create_deck` and the bound `build_deck` |
| `Pipeline` | pipeline.dfy | `DeckProcessor.build_deck` |
| `Decks` | decks.dfy | note and deck construction in `scout_anki/deck.py` and in its older copy `scout_merit_badges_anki/deck.py` |

### Conventions

**Parsed inputs.** File contents arrive already parsed:
- a JSON file is a `Json` value, or "unreadable";
- a directory listing is a sequence of `(path, is_file)` entries in glob order; the `images` directory of a rank comes with two listings, its direct children (`glob("*")`) and every path under it (the recursive glob of `discover_images`).

**Foreign functions as parameters.** Each is passed in, and only what the source relies on is stated about it:
- `sha1` is `hashlib.sha1` on the UTF-8 bytes;
- `pyHash` is Python's `hash` of a string;
- `repr` is `str()` of a JSON list or dict;
- `copyOk` says whether `shutil.copy2` succeeds;
- `tempDir` is the directory `tempfile.mkdtemp` returns.

**Duplicated code.** Functions that appear twice in the repository with identical bodies are modelled once:
- `find_adventure_image`, `map_adventures_to_images` and `create_adventure_mapping_summary` in `cub_adventures/mapping.py` and `cub_adventures/adventure.py`;
- `create_merit_badge_note` and `create_merit_badge_deck` in the two `deck.py` files.

The table cites both copies. The copy of `normalize_badge_data` is modelled again as its own loop. Its contract proves it equal to the first copy.

**Deck builders.** Each deck builder is a loop. The loop is proved equal to a left fold (`BuildNotes`, `AdventureBuild`), and lemmas state what that fold contains.

## Model

| member | source | states |
|---|---|---|
| Text.Strip | scout_anki/schema.py:105 | `str.strip()`: the result has no white space at either end, and it is empty exactly when the input is all white space |
| Text.StripIsMiddleSlice | scout_anki/schema.py:105 | the stripped text is a slice of the input with only white space before and after it, so together with `Strip`'s contract it is the longest such slice |
| Text.Lower | scout_anki/schema.py:55 | `str.lower()` on ASCII: same length, each character lowered, nothing else changed |
| Text.Basename | scout_anki/deck.py:116 | `os.path.basename`: the result holds no `/` |
| Text.BasenameIsTail | scout_anki/deck.py:116 | the base name is the tail of the path: what follows its last `/`, or the whole path when there is none |
| Text.StemSuffix | scout_anki/cub_adventures/mapping.py:38 | pathlib's stem and suffix put back together give the name again |
| JsonValue.PyStr | scout_anki/schema.py:105 | `str(v)` returns a JSON string unchanged |
| JsonValue.FirstTruthyKey | scout_anki/schema.py:103-104 | the index of the first key whose value is truthy; no earlier key is truthy; `None` exactly when no key is truthy |
| JsonValue.FirstTruthyText | scout_anki/schema.py:102-106 | the stripped `str()` of the first truthy key's value; `None` exactly when no key is truthy |
| Identifiers.SpacesToDashes | scout_anki/schema.py:55 | every space becomes `-` and every other character stays |
| Identifiers.KeepSlugChars | scout_anki/schema.py:57 | the result is the input's characters from `[a-z0-9-]`, in order, the others dropped; an alphanumeric survives iff there was one; already-clean text is unchanged |
| Identifiers.CollapseDashes | scout_anki/schema.py:59 | no `--` remains; the first character is kept; the slug alphabet and the presence of a letter or digit are preserved; text without `--` is unchanged |
| Identifiers.CollapseDoubleDash | scout_anki/schema.py:59 | two dashes in a row collapse exactly as one dash does, wherever they stand; with "text without `--` is unchanged" this fixes the result on every input |
| Identifiers.CollapseDashRun | scout_anki/schema.py:59 | a run of any number of dashes becomes exactly one dash (`re.sub(r"-+", "-", s)`) |
| Identifiers.CollapseKeepsNonDashes | scout_anki/schema.py:59 | collapsing removes only dashes: the characters other than `-` are those of the input, in order |
| Identifiers.TrimDashes | scout_anki/schema.py:61 | no dash at either end; slug-alphabet text becomes empty exactly when it holds no letter or digit; text without end dashes is unchanged |
| Identifiers.TrimDashesIsMiddleSlice | scout_anki/schema.py:61 | `strip("-")` returns a slice of the input with only dashes before and after it |
| Identifiers.TrimDashesKeepsNonDashes | scout_anki/schema.py:61 | trimming removes only dashes: the characters other than `-` are those of the input, in order |
| Identifiers.Slug | scout_anki/schema.py:39-66 | on success the slug is non-empty, uses only `[a-z0-9-]`, has no dash at either end and no `--`; it fails with `EmptySlug` (the `ValueError`) exactly when the lowered input has no ASCII letter or digit |
| Identifiers.SlugLettersAndDigits | scout_anki/schema.py:54-61 | the characters of a slug other than `-` are exactly the ASCII letters and digits of the lower-cased input, in order |
| Identifiers.SlugJoinsWords | scout_anki/schema.py:46-61 | two slugs joined by a space give `Success` of the two joined by one dash: the space between words becomes the dash ("spaces as dashes") |
| Identifiers.SlugOf | scout_anki/schema.py:51-52 | a non-string input fails with `NotAString` (the `TypeError`); a string goes through `Slug` |
| Identifiers.SlugIdempotent | scout_anki/schema.py:54-61 | `slug(slug(s)) == slug(s)` whenever `slug(s)` succeeds |
| Identifiers.HexDigest | scout_anki/schema.py:36 | `hexdigest()`: two hexadecimal digits per byte |
| Identifiers.ParseHex | scout_anki/schema.py:36 | `int(s, 16)` is below `16^len(s)` |
| Identifiers.ParseHexDigest | scout_anki/schema.py:36 | parsing a hex digest gives back the big-endian value of the bytes |
| Identifiers.StableId | scout_anki/schema.py:21-36 | `stable_id(seed)` lies in `[0, 16^10)` |
| Identifiers.StableIdIsDigestPrefix | scout_anki/schema.py:36 | `stable_id(seed)` is the big-endian value of the first five digest bytes |
| Badges.IterItems | scout_anki/schema.py:97 | `for item in v`: a list gives its items; a string or dict gives only strings, which the loop skips; a number, boolean or `null` raises `TypeError` |
| Badges.BadgeItems | scout_anki/schema.py:80-93 | a list is used as is; a dict is unwrapped at the first present key of `badges`/`items`/`data`/`meritBadges`, or else taken as one record; any other value gives no badges |
| Badges.ItemName | scout_anki/schema.py:101-106 | the name is the stripped text of the first truthy `name`/`title`/`badge`; a non-dict item has none |
| Badges.ImageFilename | scout_anki/schema.py:130-133 | `image_filename` is set exactly when the key is truthy, and it is then the stripped text |
| Badges.BuildBadge | scout_anki/schema.py:116-145 | description from the first truthy of `overview`/`description`/`blurb`/`summary`, else `""`; image from `image`/`img`/`icon`; source `"JSON"`; eagle flag is the truthiness of `is_eagle_required` |
| Badges.Candidate | scout_anki/schema.py:97-109 | an item yields a record exactly when it is a dict whose first truthy name key strips to non-empty text, and the record is built from that name |
| Badges.Candidates | scout_anki/schema.py:97-109 | every record kept before de-duplication has a non-empty name and source `"JSON"` |
| Badges.FirstOccurrencesSpec | scout_anki/schema.py:111-114 | the first-occurrence indices are ascending, in range, and are exactly the positions whose name appears at no earlier position |
| Badges.KeepFirstNames | scout_anki/schema.py:111-114 | de-duplication keeps every name |
| Badges.KeepFirstIsFirstOccurrences | scout_anki/schema.py:111-114 | the kept records are, in order, the records at the first-occurrence indices |
| Badges.KeepFirstDistinct | scout_anki/schema.py:111-114 | kept names are pairwise distinct |
| Badges.KeepFirstSubset | scout_anki/schema.py:163-167 | every kept record comes from the input |
| Badges.NormalizedProperties | scout_anki/schema.py:95-146 | the output names are distinct and non-empty, with source `"JSON"`; the output has the same name set as the candidates and is the subsequence of first occurrences, in input order |
| Badges.NormalizeBadgeData | scout_anki/schema.py:69-148 | the loop returns `Normalized(data)`; it fails only when a wrapper key holds a number, boolean or `null`; output names are distinct and non-empty |
| Badges.MergeList | scout_anki/schema.py:164-167 | walking one more list extends the de-duplication of everything walked so far, and `seen_names` stays the set of kept names |
| Badges.MergeBadgeLists | scout_anki/schema.py:151-169 | the result keeps the first occurrence of each name across the concatenated lists, in order; names are distinct and none is lost |
| MeritBadgeSchema.NormalizeBadgeData | scout_anki/merit_badges/schema.py:19-98 | this copy returns, for every input, what `Badges.Normalized` returns; names are distinct |
| MeritBadgeSchema.SkippedItemContributesNothing | scout_anki/merit_badges/schema.py:47-59 | removing a non-dict item, or one without a non-empty name, leaves the output unchanged |
| MeritBadgeSchema.CandidatesDropSkipped | scout_anki/merit_badges/schema.py:48-59 | an item that yields no record contributes nothing to the candidates |
| MeritBadgeSchema.RepeatedNameIsDropped | scout_anki/merit_badges/schema.py:61-64 | appending an item whose name is already in the output leaves the output unchanged |
| Partition.MappedPart | scout_anki/merit_badges/mapping.py:44-53 | every mapped pair's record has a hit, and the pair holds exactly that hit |
| Partition.UnmappedPart | scout_anki/cub_adventures/mapping.py:14-24 | every unmapped record has no hit |
| Partition.PartitionCounts | scout_anki/image_utils.py:28-42 | mapped plus unmapped counts equal the input count |
| Partition.PartitionIsPermutation | scout_anki/image_utils.py:31-40 | together, the mapped records and the unmapped records are the input as a multiset |
| Partition.PartitionIsStable | scout_anki/cub_adventures/mapping.py:17-24 | the mapped records are the input filtered by "has a hit", and the unmapped ones by "has none", both in input order |
| Partition.PartitionBy | scout_anki/merit_badges/mapping.py:44-60 | the append loop builds exactly the two parts, whose sizes sum to the input size |
| Images.Lookup | scout_anki/deck.py:163 | `images[name]` exists exactly when `name` is a key; with distinct keys it is that entry's path |
| Images.Put | scout_anki/image_utils.py:20 | `images[name] = path`: the key set grows by `name`, the index grows by one item exactly when `name` is new, and keys stay distinct |
| Images.PutShape | scout_anki/image_utils.py:20 | an existing key keeps its place in insertion order, and a new key goes last with its path |
| Images.PutLookup | scout_anki/image_utils.py:20 | with distinct keys, `name` now gives `path` and every other name gives what it gave before |
| Images.Discovered | scout_anki/image_utils.py:15-21 | the index built from a listing has distinct keys |
| Images.DiscoverImages | scout_anki/image_utils.py:15-21 | the loop builds `Discovered(files, IsImageFile)`: regular files whose lower-cased suffix is `.jpg`/`.jpeg`/`.png`/`.gif`/`.webp`, keyed by basename |
| Images.DiscoveredKeys | scout_anki/image_utils.py:18-20 | a name is a key iff some accepted file has that basename |
| Images.DiscoveredLastWins | scout_anki/image_utils.py:20 | a name maps to the path of the last accepted file with that basename |
| Images.UpdateDistinct | scout_anki/cub_adventures/schema.py:80 | `dict.update` keeps keys distinct |
| Images.UpdateKeys | scout_anki/cub_adventures/schema.py:80 | after `update`, the keys are the union of both key sets |
| Images.UpdateLookup | scout_anki/cub_adventures/schema.py:79-80 | after `update`, a name present in the newer index takes its path; any other name keeps its old one |
| Images.MatchFilename | scout_anki/image_utils.py:32-35 | the image name is found iff `image_filename` is non-empty and a key of the index, and it is then `image_filename` exactly, with no case folding |
| Images.MapContentByImageFilename | scout_anki/image_utils.py:24-42 | a stable partition whose sizes sum to the input size; each mapped pair holds the record's own `image_filename`, which is a key; each unmapped record's filename is absent, empty or not a key; the index is an input and is not changed |
| Summaries.MissingDetails | scout_anki/merit_badges/mapping.py:84-87 | one missing-image entry per unmapped record, in order, holding its name and expected image |
| Summaries.MappingSummary | scout_anki/merit_badges/processor.py:75-91 | totals are the input lengths; `unused_images` is the size of keys minus used names; the missing details follow the unmapped order |
| Summaries.KeySetSize | scout_anki/merit_badges/mapping.py:91 | an index with distinct keys has as many keys as entries |
| Summaries.ImageNamesSize | scout_anki/merit_badges/mapping.py:80 | the set of used image names is no larger than the mapped list; two records sharing one image count it once |
| Summaries.UnusedAccountsForImages | scout_anki/merit_badges/mapping.py:80-81 | when every mapped name is a key, unused plus used images equal the image count, so at least `images - mapped` images are unused |
| Adventures.DashSpaces | scout_anki/cub_adventures/schema.py:24 | `replace(" ", "-")` character by character |
| Adventures.AdventureSlug | scout_anki/cub_adventures/schema.py:21-24 | the slug has no space, no apostrophe and no upper-case ASCII letter, and it is no longer than the name |
| Adventures.AdventureSlugChar | scout_anki/cub_adventures/schema.py:24 | on one character: an apostrophe is dropped, a space becomes `-`, any other character is kept, lower-cased |
| Adventures.AdventureSlugAppend | scout_anki/cub_adventures/schema.py:24 | the slug of a concatenation is the concatenation of the slugs; with `AdventureSlugChar` this fixes the slug of every name |
| Adventures.SlugKeepsPlainText | scout_anki/cub_adventures/schema.py:24 | text that has no upper-case ASCII letter, space or apostrophe is its own slug |
| Adventures.SlugIdempotent | scout_anki/cub_adventures/schema.py:24 | the adventure slug is idempotent |
| Adventures.AdventureStableId | scout_anki/cub_adventures/schema.py:26-29 | `stable_id` lies in `[0, 2^31)` |
| Adventures.TextField | scout_anki/cub_adventures/schema.py:35-38 | a missing key reads as `""`; a string value is taken unstripped |
| Adventures.ImageFilenameField | scout_anki/cub_adventures/schema.py:39 | `image_filename` is the string value when present, else `None` |
| Adventures.NormalizeAdventureData | scout_anki/cub_adventures/schema.py:32-40 | a dict yields the record of its four text fields and its image filename; a non-dict fails |
| Adventures.FileAdventures | scout_anki/cub_adventures/schema.py:62-74 | the adventures of one rank directory all have non-empty names and number at most the files; which files are skipped is stated by `UnreadFileIgnored` |
| Adventures.UnreadFileIgnored | scout_anki/cub_adventures/schema.py:63-74 | a file that is skipped, because its name starts with `bobcat` or because it is not valid JSON (the caught `JSONDecodeError`), changes nothing wherever it stands, and the files after it are still read |
| Adventures.NamedAdventureAppended | scout_anki/cub_adventures/schema.py:69-71 | a readable file whose adventure has a name appends it, with no de-duplication |
| Adventures.Collected | scout_anki/cub_adventures/schema.py:52-81 | every collected adventure has a non-empty name |
| Adventures.CollectedInRankOrder | scout_anki/cub_adventures/schema.py:52-56 | the adventures of earlier rank directories come first, as a prefix of the result |
| Adventures.LaterRankImagesWin | scout_anki/cub_adventures/schema.py:77-80 | after a rank's images are merged, a basename it provides maps to its path and any other name keeps the earlier path |
| Adventures.ReadRankFiles | scout_anki/cub_adventures/schema.py:62-74 | the file loop computes `FileAdventures` |
| Adventures.ProcessAdventureDirectory | scout_anki/cub_adventures/schema.py:43-84 | the rank loop over lion, tiger, wolf, bear, webelos, arrow-of-light (missing ones skipped) computes `Collected` |
| Adventures.FailureSticks | scout_anki/cub_adventures/schema.py:66-74 | an uncaught error in one file ends the whole walk with that error |
| Adventures.CollectedFailureSticks | scout_anki/cub_adventures/schema.py:54-81 | an error in one rank directory ends the whole walk with that error |
| LegacyAdventures.NormalizeLegacyAdventure | scout_anki/cub_adventures/adventure.py:31-38 | the older normaliser reads the same four fields and never sets an image name |
| LegacyAdventures.LegacyFilterDiffers | scout_anki/cub_adventures/adventure.py:78 | the older filter accepts `.jpg`/`.jpeg`/`.png`/`.gif` case-insensitively, i.e. the shared extension set without `.webp`, and it does not require a regular file |
| LegacyAdventures.PutAccepted | scout_anki/cub_adventures/adventure.py:76-80 | adding the accepted images of a rank keeps keys distinct |
| LegacyAdventures.PutAcceptedFromEmpty | scout_anki/cub_adventures/adventure.py:77-79 | on an empty index, the older scan builds the same index as `discover_images` with the older filter |
| LegacyAdventures.LegacyHaveNoImage | scout_anki/cub_adventures/adventure.py:18 | no adventure read by the older walk has an image name |
| LegacyAdventures.ScanImages | scout_anki/cub_adventures/adventure.py:75-80 | the image loop computes `PutAccepted` |
| LegacyAdventures.ProcessLegacyAdventureDirectory | scout_anki/cub_adventures/adventure.py:41-83 | the older walk computes `Collected` with the older normaliser and an image scan over the direct children of `images` only (`glob("*")`); its adventures have no image name |
| FuzzyMapping.FirstExact | scout_anki/cub_adventures/mapping.py:37-40 | the first image, in insertion order, whose lower-cased stem equals the slug |
| FuzzyMapping.FirstPartial | scout_anki/cub_adventures/mapping.py:43-46 | the first image whose stem contains the slug or is contained in it |
| FuzzyMapping.FindAdventureImage | scout_anki/cub_adventures/mapping.py:33-48 | any image name returned is a key of the index; the older copy at `scout_anki/cub_adventures/adventure.py:110-125` is modelled by this member too |
| FuzzyMapping.ExactIsPartial | scout_anki/cub_adventures/mapping.py:45 | an exact match is also a containment match |
| FuzzyMapping.ExactMatchPreferred | scout_anki/cub_adventures/mapping.py:37-40 | if some stem equals the slug, the first such image is returned, ahead of any earlier containment match |
| FuzzyMapping.PartialMatchFallback | scout_anki/cub_adventures/mapping.py:42-46 | with no exact match, the first image that matches by containment in either direction is returned |
| FuzzyMapping.NotFoundIffNoPartialMatch | scout_anki/cub_adventures/adventure.py:120-125 | `None` exactly when no image matches by containment |
| FuzzyMapping.EmptySlugMatchesFirstImage | scout_anki/cub_adventures/adventure.py:120-123 | an empty slug matches something in any non-empty index, and matches the first image when no stem is empty |
| FuzzyMapping.MapAdventuresToImages | scout_anki/cub_adventures/mapping.py:9-30 | a stable partition whose sizes sum to the input size; each mapped pair holds exactly what `find_adventure_image` returns, which is a key; the older copy at `scout_anki/cub_adventures/adventure.py:86-107` is modelled by this member too |
| FuzzyMapping.CreateAdventureMappingSummary | scout_anki/cub_adventures/mapping.py:51-77 | totals are input lengths; unused images are keys minus used names; one entry per unmapped adventure, in order, named `"name (rank)"` and expecting `slug + ".jpg"`; the older copy at `scout_anki/cub_adventures/adventure.py:128-154` is modelled by this member too |
| MeritMapping.FindImageForBadge | scout_anki/merit_badges/mapping.py:8-27 | returns `image_filename` iff it is non-empty and a key, else `None` |
| MeritMapping.MapBadgesToImages | scout_anki/merit_badges/mapping.py:30-60 | a stable partition whose sizes sum to the input size; mapped names are keys equal to the badge's filename; unmapped badges have no image |
| MeritMapping.CreateMappingSummary | scout_anki/merit_badges/mapping.py:63-96 | totals are input lengths; unused images are keys minus mapped names; one entry per unmapped badge, in order, with its raw `image_filename` (possibly `None`) as the expected image |
| MeritProcessor.MapContentToImages | scout_anki/merit_badges/processor.py:54-65 | exactly the result of `map_content_by_image_filename` on the badges |
| MeritProcessor.CreateMappingSummary | scout_anki/merit_badges/processor.py:67-91 | totals are input lengths; unused images are keys minus mapped names; the expected image is the badge's `image_filename` |
| AdventureProcessor.MapContentToImages | scout_anki/cub_adventures/processor.py:33-44 | exactly the result of `map_content_by_image_filename`, with no fuzzy fallback |
| AdventureProcessor.CreateMappingSummary | scout_anki/cub_adventures/processor.py:46-74 | totals are input lengths; unused images are keys minus used names; entries are named `"name (rank)"` and expect the adventure's `image_filename`, which may be `None` |
| MeritProcessor.CreateDeck | scout_anki/merit_badges/processor.py:115-123 | `create_deck` yields a deck exactly when every pair's image is a key, copies, and the badge name has a slug; the deck then has one note per pair; otherwise the first failing pair's error is raised |
| MeritProcessor.UnsluggableNameStopsBuild | scout_anki/deck.py:115 | a mapped badge whose name has no letter or digit makes `create_deck` raise the `ValueError` of `slug` |
| MeritProcessor.BuildMeritDeck | scout_anki/processor.py:63-123 | the merit build fails with the builder's error exactly when something is mapped, it is not a dry run and `create_deck` raises; a written package holds one note per mapped badge |
| AdventureProcessor.CreateDeck | scout_anki/cub_adventures/processor.py:98-106 | `create_deck` yields a deck exactly when every image name is a key, else the first missing name's `KeyError`; the deck has one note per pair whose image copies, at most one per pair |
| AdventureProcessor.FailedCopyDropsNote | scout_anki/deck.py:309-317 | a pair whose copy fails adds no note and the build goes on, so the deck can have fewer notes than mapped pairs |
| AdventureProcessor.BuildAdventureDeck | scout_anki/processor.py:63-123 | the adventure build fails exactly when something is mapped, it is not a dry run and an image name is missing; a written package holds one note per mapped adventure whose image copies |
| AdventureProcessor.JungleExample | tests/test_cub_adventures.py:84-89 | an adventure whose `image_filename` is `jungle.png`, with that key in the index, maps to `jungle.png` |
| Pipeline.WithDefault | scout_anki/processor.py:73-79 | a falsy option (missing or `""`) is replaced by the default; a truthy one is kept |
| Pipeline.BuildDeck | scout_anki/processor.py:63-123 | no content gives `NoBadgesFoundError` before images are looked at; no images gives `NoImagesFoundError` with nothing mapped or printed; otherwise the summary is printed first; nothing mapped exits with code 4 and no deck; a dry run only prints; an exception of `create_deck` ends the build with that error, nothing written or cleaned; otherwise the deck is created with the defaulted names and the note count `create_deck` reports, written to the defaulted path, and the temporary files are cleaned, in that order |
| Pipeline.FinishBuild | scout_anki/processor.py:100-123 | after the summary: exit 4 iff nothing is mapped; a dry run performs no deck creation or write; a raising `create_deck` stops with its error and nothing after the summary; otherwise create with the built note count, write, clean up |
| Decks.PathJoin | scout_anki/deck.py:164 | `os.path.join` keeps an absolute second part as is |
| Decks.SplitSeed | scout_anki/deck.py:117 | splitting a GUID seed at its first `|` and joining the parts back with `|` gives the seed again |
| Decks.GuidSeedRoundTrip | scout_anki/deck.py:115-117 | a slug holds no `|`, so the seed `slug|basename` splits back into that slug and basename |
| Decks.CreateMeritBadgeNote | scout_anki/deck.py:101-127 | the note is built exactly when the badge name has a non-empty slug; otherwise the `ValueError` of `slug` propagates as `EmptyNameSlug` |
| Decks.MeritNoteFields | scout_anki/deck.py:119-125 | fields are the image tag, the name, the description, and an eagle field that is non-empty exactly when the badge is Eagle-required; the GUID is `guid_for` of a seed |
| Decks.MeritNoteSeed | scout_merit_badges_anki/deck.py:110-113 | the GUID seed of a note reads back as the slug of the badge's name and the basename of its image |
| Decks.SameMeritGuidIff | scout_anki/deck.py:114-117 | two merit notes share a GUID exactly when their names have the same slug and their images the same basename |
| Decks.MeritPair | scout_anki/deck.py:161-173 | one iteration: a missing image is a `KeyError`, a failed copy an error, an empty slug a `ValueError`; otherwise the pair gives its note and the path `temp_dir/image_name` |
| Decks.BuildNotesOutcome | scout_anki/deck.py:161-173 | the loop succeeds exactly when no pair fails, and otherwise stops with the first failing pair's error |
| Decks.BuildNotesContents | scout_merit_badges_anki/deck.py:157-169 | one note and one media path per pair, in the order of the pairs |
| Decks.BuildNotesFailureSticks | scout_anki/deck.py:163 | an exception in one iteration ends the whole build |
| Decks.MeritBuildSucceedsIff | scout_anki/deck.py:163-172 | the merit deck is built exactly when every image name is a key, every copy succeeds and every name has a non-empty slug |
| Decks.CreateMeritBadgeDeck | scout_anki/deck.py:130-177 | deck id `stable_id(deck_name)`, model id `stable_id(model_name)`; the loop yields the notes and media paths of the fold, or its first error; the older copy at `scout_merit_badges_anki/deck.py:126-173` is modelled by this member too |
| Decks.TruncateOverview | scout_anki/deck.py:323-325 | an overview of at most 500 characters is unchanged; a longer one becomes its first 497 characters plus `...`, exactly 500 long |
| Decks.TruncateIdempotent | scout_anki/deck.py:323-325 | cutting an overview twice is cutting it once |
| Decks.AdventureNote | scout_anki/deck.py:319-339 | fields are the image tag, name, rank, type and cut overview; the GUID is the text of the adventure's `stable_id` |
| Decks.AdventureBuildSpec | scout_anki/deck.py:305-341 | the loop fails exactly when some image name is not a key (the first one); a failed copy adds neither a note nor a media path; the notes and media paths come from the pairs whose copy succeeds, in order, so there are as many notes as media paths |
| Decks.CreateAdventureDeck | scout_anki/deck.py:287-344 | deck and model ids from `stable_id` of their names; the loop yields the notes and media paths of the fold, or its first missing image |
| Decks.AdventureFailureSticks | scout_anki/deck.py:307 | a `KeyError` in one iteration ends the whole build |

## Left out

- Reading files and directories: `glob`, `open`, `json.load`, `exists` and `is_file`. Directory trees, parsed files and listings are inputs. The order of the glob is whatever order the listing is given in. This includes `MeritBadgeProcessor.process_directory` and `scout_anki/merit_badges/data.py`.
- genanki (`Model`, `Note`, `Deck`, `Package`), the HTML templates and CSS, `write_anki_package` and `cleanup_temp_files`. Notes and decks are values. The package write and the cleanup appear only as steps in the trace of `Pipeline.BuildDeck`.
- `Pipeline.BuildDeck`: the directory is not processed here; content and images are parameters. `create_deck` is a parameter giving the note count or the raised error; `MeritProcessor.BuildMeritDeck` and `AdventureProcessor.BuildAdventureDeck` pass the processors' `CreateDeck`, which is tied to `Decks`. The deck object itself is not carried into the write step. `print_summary` is a step carrying the summary.
- Identifiers.StableId: SHA-1 is a parameter. Only the truncation to ten hex digits and the bound are stated. The docstring's example values are not modelled.
- Adventures.AdventureStableId: Python's `hash` is a parameter, salted per process. Only the `[0, 2^31)` bound is stated.
- JsonValue.PyStr: `str()` of a JSON list or dict is a parameter. JSON numbers are integers; floats are not modelled.
- Text.Lower: only ASCII letters are lowered, not the full Unicode `str.lower()`. `strip()` uses Python's white-space set for ASCII and common Unicode spaces.
- Adventures.ImageFilenameField: a non-string `image_filename` reads as `None`, so the record stays unmapped and the summary shows no expected image. Python keeps the raw value: a number is shown as the expected image, and a list or dict raises `TypeError` at the dictionary membership test (`scout_anki/image_utils.py:34`).
- Adventures.TextField: a non-string JSON value under a text key reads as `""`. Python would keep the value, and a later string operation on it would raise.
- Decks.SameMeritGuidIff: `genanki.guid_for` is modelled as the constructor `GuidFor(seed)`, so equal GUIDs imply equal seeds. The real function is a truncated hash, which is not injective, so the left-to-right direction holds only for this idealisation.
- Decks.CreateMeritBadgeDeck: `shutil.copy2` is reduced to whether it succeeds (`copyOk`), and `tempfile.mkdtemp` to the `tempDir` parameter.
- Decks.CreateAdventureDeck: as for the merit deck. A failed copy is skipped, as the source's `except` does.
- Logging, the click CLIs, the config loaders and the exit-code mapping in `scout_anki/cli.py` are not modelled. In that mapping `NoImagesFoundError` is not a `ValueError`, so it reaches the generic handler.
- `scout_anki/deck.py` and both processors import `MeritBadge` from `scout_anki/merit_badges/schema.py`. That module defines only `Badge`, so the import would fail. The model uses the `Badge` record throughout.
- `scout_merit_badges_anki/schema.py` is not part of this model. The older `deck.py` imports `Badge`, `slug` and `stable_id` from it, and the model uses the definitions of `scout_anki/schema.py` for them.
