/** Note and deck construction of `scout_anki/deck.py` (and of its older copy
    `scout_merit_badges_anki/deck.py`). The genanki objects are modelled as
    values; copying an image into the temporary directory is a parameter
    that says whether the copy succeeds. */
module Decks {
  import opened Wrappers
  import opened Seqs
  import Text
  import opened Identifiers
  import opened Images
  import opened Badges
  import opened Adventures

  /** A note GUID: `genanki.guid_for(seed)`, or a literal string. */
  datatype Guid = GuidFor(seed: string) | GuidText(text: string)

  datatype Note = Note(fields: seq<string>, guid: Guid)

  datatype Deck = Deck(deckId: nat, name: string, modelId: nat, notes: seq<Note>)

  /** Why a deck could not be built: an image name missing from the index
      (`KeyError`), a failed copy, or a name with an empty slug (`ValueError`). */
  datatype DeckError = MissingImage(imageName: string) | CopyFailed(imageName: string) | EmptyNameSlug(name: string)

  /** The image field of a note. */
  function ImgTag(imageName: string): string
  {
    "<img src=\"" + imageName + "\" style=\"max-width: 85%; height: auto;\">"
  }

  /** `os.path.join(directory, name)`. */
  function PathJoin(directory: string, name: string): (r: string)
    ensures Text.StartsWith(name, "/") ==> r == name
  {
    if Text.StartsWith(name, "/") then name
    else if directory == "" || directory[|directory| - 1] == '/' then directory + name
    else directory + "/" + name
  }

  // ---------------------------------------------------------------------------
  // Merit badge notes.

  /** `f"{slug}|{basename(image_name)}"`. */
  function GuidSeed(slug: string, imageName: string): string
  {
    slug + "|" + Text.Basename(imageName)
  }

  /** Index of the first `|` of `s`. */
  function FirstBar(s: string): (r: Option<nat>)
    ensures r.Some? ==> r.value < |s| && s[r.value] == '|' && forall j :: 0 <= j < r.value ==> s[j] != '|'
    ensures r.None? <==> '|' !in s
  {
    FirstWhere(s, (c: char) => c == '|')
  }

  /** Reads a seed back into its slug and image basename. */
  function SplitSeed(seed: string): (r: Option<(string, string)>)
    ensures r.Some? ==> r.value.0 + "|" + r.value.1 == seed
  {
    match FirstBar(seed)
    case Some(k) =>
      assert seed == seed[..k] + "|" + seed[k + 1..];
      Some((seed[..k], seed[k + 1..]))
    case None => None
  }

  /** A slug has no `|`, so the seed determines both the slug and the
      image's basename: notes get the same GUID exactly when both agree. */
  lemma GuidSeedRoundTrip(slug: string, imageName: string)
    requires IsSlug(slug)
    ensures SplitSeed(GuidSeed(slug, imageName)) == Some((slug, Text.Basename(imageName)))
  {
    var seed := GuidSeed(slug, imageName);
    assert seed[|slug|] == '|';
    forall j | 0 <= j < |slug| ensures seed[j] != '|' {
      assert IsSlugChar(slug[j]);
    }
    var f := FirstBar(seed);
    assert f.Some? && f.value <= |slug|;
    assert f.value >= |slug| by {
      assert seed[f.value] == '|';
    }
    assert seed[..|slug|] == slug;
    assert seed[|slug| + 1..] == Text.Basename(imageName);
  }

  /** `create_merit_badge_note(badge, image_name, model)`. */
  function CreateMeritBadgeNote(b: Badge, imageName: string): (r: Result<Note, DeckError>)
    ensures r.Failure? <==> Slug(b.name).Failure?
    ensures r.Failure? ==> r.error == EmptyNameSlug(b.name)
  {
    match Slug(b.name)
    case Failure(_) => Failure(EmptyNameSlug(b.name))
    case Success(s) =>
      Success(Note([ImgTag(imageName), b.name, b.description, if b.eagleRequired then "1" else ""],
                   GuidFor(GuidSeed(s, imageName))))
  }

  /** A merit badge note holds the image tag, the name, the description and
      an eagle field that is non-empty exactly for Eagle-required badges; its
      GUID is derived from a seed. */
  lemma MeritNoteFields(b: Badge, imageName: string)
    requires CreateMeritBadgeNote(b, imageName).Success?
    ensures var n := CreateMeritBadgeNote(b, imageName).value;
            && |n.fields| == 4
            && n.fields[0] == ImgTag(imageName)
            && n.fields[1] == b.name
            && n.fields[2] == b.description
            && (n.fields[3] != "" <==> b.eagleRequired)
            && n.guid.GuidFor?
  {
  }

  /** The GUID seed of a merit badge note reads back as the slug of the
      badge's name and the basename of its image. */
  lemma MeritNoteSeed(b: Badge, imageName: string)
    requires CreateMeritBadgeNote(b, imageName).Success?
    ensures SplitSeed(CreateMeritBadgeNote(b, imageName).value.guid.seed) == Some((Slug(b.name).value, Text.Basename(imageName)))
  {
    GuidSeedRoundTrip(Slug(b.name).value, imageName);
  }

  /** Two merit badge notes get the same GUID exactly when their names have
      the same slug and their images the same basename. */
  lemma SameMeritGuidIff(b1: Badge, image1: string, b2: Badge, image2: string)
    requires CreateMeritBadgeNote(b1, image1).Success? && CreateMeritBadgeNote(b2, image2).Success?
    ensures CreateMeritBadgeNote(b1, image1).value.guid == CreateMeritBadgeNote(b2, image2).value.guid
            <==> Slug(b1.name).value == Slug(b2.name).value && Text.Basename(image1) == Text.Basename(image2)
  {
    MeritNoteSeed(b1, image1);
    MeritNoteSeed(b2, image2);
  }

  /** One pass of the loop of `create_merit_badge_deck`: look the image up
      (`KeyError` when it is missing), copy it into the temporary directory,
      build the note; the result is the note and the media path. */
  function MeritPair(p: (Badge, string), images: Index, tempDir: string, copyOk: (string, string) -> bool)
    : (r: Result<(Note, string), DeckError>)
    ensures r.Success? <==>
              && p.1 in KeySet(images)
              && copyOk(Lookup(images, p.1).value, PathJoin(tempDir, p.1))
              && Slug(p.0.name).Success?
    ensures p.1 !in KeySet(images) ==> r == Failure(MissingImage(p.1))
    ensures p.1 in KeySet(images) && !copyOk(Lookup(images, p.1).value, PathJoin(tempDir, p.1)) ==> r == Failure(CopyFailed(p.1))
    ensures r.Success? ==> r.value == (CreateMeritBadgeNote(p.0, p.1).value, PathJoin(tempDir, p.1))
  {
    match Lookup(images, p.1)
    case None => Failure(MissingImage(p.1))
    case Some(source) =>
      if !copyOk(source, PathJoin(tempDir, p.1)) then Failure(CopyFailed(p.1))
      else match CreateMeritBadgeNote(p.0, p.1)
        case Failure(e) => Failure(e)
        case Success(note) => Success((note, PathJoin(tempDir, p.1)))
  }

  function MeritStep(images: Index, tempDir: string, copyOk: (string, string) -> bool)
    : ((Badge, string)) -> Result<(Note, string), DeckError>
  {
    (p: (Badge, string)) => MeritPair(p, images, tempDir, copyOk)
  }

  /** The notes and media paths a loop that runs `step` on each pair in turn
      has produced after `pairs`, stopping at the first error. */
  function BuildNotes<P>(pairs: seq<P>, step: P -> Result<(Note, string), DeckError>)
    : Result<(seq<Note>, seq<string>), DeckError>
  {
    if |pairs| == 0 then Success(([], []))
    else
      match BuildNotes(pairs[..|pairs| - 1], step)
      case Failure(e) => Failure(e)
      case Success(built) =>
        match step(pairs[|pairs| - 1])
        case Failure(e) => Failure(e)
        case Success(made) => Success((built.0 + [made.0], built.1 + [made.1]))
  }

  function StepFails<P>(step: P -> Result<(Note, string), DeckError>): P -> bool
  {
    (p: P) => step(p).Failure?
  }

  /** The build succeeds exactly when no step fails; otherwise its error is
      the one of the first failing step. */
  lemma {:induction false} BuildNotesOutcome<P>(pairs: seq<P>, step: P -> Result<(Note, string), DeckError>)
    ensures var r := BuildNotes(pairs, step);
            var first := FirstWhere(pairs, StepFails(step));
            && (r.Success? <==> first.None?)
            && (r.Failure? ==> r.error == step(pairs[first.value]).error)
  {
    if |pairs| > 0 {
      var init := pairs[..|pairs| - 1];
      var p := pairs[|pairs| - 1];
      BuildNotesOutcome(init, step);
      FirstWhereSnoc(init, p, StepFails(step));
      assert init + [p] == pairs;
    }
  }

  /** A successful build holds one note and one media path per pair, made
      by the pair's step, in order. */
  lemma {:induction false} BuildNotesContents<P>(pairs: seq<P>, step: P -> Result<(Note, string), DeckError>)
    requires BuildNotes(pairs, step).Success?
    ensures var built := BuildNotes(pairs, step).value;
            && |built.0| == |pairs| && |built.1| == |pairs|
            && forall k :: 0 <= k < |pairs| ==>
                 step(pairs[k]).Success? && built.0[k] == step(pairs[k]).value.0 && built.1[k] == step(pairs[k]).value.1
  {
    if |pairs| > 0 {
      var init := pairs[..|pairs| - 1];
      BuildNotesContents(init, step);
      assert forall k :: 0 <= k < |init| ==> pairs[k] == init[k];
    }
  }

  /** Once the build over a prefix has failed, the whole build fails with
      the same error. */
  lemma {:induction false} BuildNotesFailureSticks<P>(pairs: seq<P>, i: nat, step: P -> Result<(Note, string), DeckError>)
    requires i <= |pairs| && BuildNotes(pairs[..i], step).Failure?
    ensures BuildNotes(pairs, step) == BuildNotes(pairs[..i], step)
    decreases |pairs| - i
  {
    if i < |pairs| {
      assert pairs[..i + 1][..i] == pairs[..i];
      BuildNotesFailureSticks(pairs, i + 1, step);
    } else {
      assert pairs[..i] == pairs;
    }
  }

  /** A failing step after a successful prefix ends the whole build with
      its error. */
  lemma BuildNotesStopsAt<P>(pairs: seq<P>, i: nat, step: P -> Result<(Note, string), DeckError>)
    requires i < |pairs| && BuildNotes(pairs[..i], step).Success? && step(pairs[i]).Failure?
    ensures BuildNotes(pairs, step) == Failure(step(pairs[i]).error)
  {
    assert pairs[..i + 1][..i] == pairs[..i];
    BuildNotesFailureSticks(pairs, i + 1, step);
  }

  /** A succeeding step after a successful prefix appends its note and path. */
  lemma BuildNotesExtends<P>(pairs: seq<P>, i: nat, step: P -> Result<(Note, string), DeckError>)
    requires i < |pairs| && BuildNotes(pairs[..i], step).Success? && step(pairs[i]).Success?
    ensures var built := BuildNotes(pairs[..i], step).value;
            BuildNotes(pairs[..i + 1], step) ==
            Success((built.0 + [step(pairs[i]).value.0], built.1 + [step(pairs[i]).value.1]))
  {
    assert pairs[..i + 1][..i] == pairs[..i];
  }

  /** The merit deck is built exactly when every pair has its image in the
      index, copies it, and has a name with a non-empty slug. */
  lemma MeritBuildSucceedsIff(mapped: seq<(Badge, string)>, images: Index, tempDir: string, copyOk: (string, string) -> bool)
    ensures BuildNotes(mapped, MeritStep(images, tempDir, copyOk)).Success? <==>
            forall k :: 0 <= k < |mapped| ==>
              && mapped[k].1 in KeySet(images)
              && copyOk(Lookup(images, mapped[k].1).value, PathJoin(tempDir, mapped[k].1))
              && Slug(mapped[k].0.name).Success?
  {
    var step := MeritStep(images, tempDir, copyOk);
    BuildNotesOutcome(mapped, step);
    assert forall k :: 0 <= k < |mapped| ==> (StepFails(step)(mapped[k]) <==> MeritPair(mapped[k], images, tempDir, copyOk).Failure?);
  }

  /** `FirstWhere` over `xs + [x]`: the first hit in `xs`, else `x` if it hits. */
  lemma {:induction false} FirstWhereSnoc<T>(xs: seq<T>, x: T, p: T -> bool)
    ensures FirstWhere(xs + [x], p) ==
              match FirstWhere(xs, p)
              case Some(k) => Some(k)
              case None => if p(x) then Some(|xs|) else None
  {
    if |xs| == 0 {
      assert xs + [x] == [x];
      assert [x][1..] == [];
    } else {
      assert (xs + [x])[0] == xs[0];
      assert (xs + [x])[1..] == xs[1..] + [x];
      if !p(xs[0]) {
        FirstWhereSnoc(xs[1..], x, p);
      }
    }
  }

  /** `create_merit_badge_deck(deck_name, model_name, mapped, images)`: the
      deck and model ids derive from their names, and the notes and media
      paths are those of `BuildNotes` over `MeritPair`; the first failing
      pair aborts the build with its error. */
  method CreateMeritBadgeDeck(deckName: string, modelName: string, mapped: seq<(Badge, string)>, images: Index,
                              tempDir: string, sha1: string -> Sha1Digest, copyOk: (string, string) -> bool)
    returns (r: Result<(Deck, seq<string>), DeckError>)
    ensures var built := BuildNotes(mapped, MeritStep(images, tempDir, copyOk));
            && (r.Success? <==> built.Success?)
            && (r.Failure? ==> r.error == built.error)
            && (r.Success? ==>
                  && r.value.0 == Deck(StableId(sha1, deckName), deckName, StableId(sha1, modelName), built.value.0)
                  && r.value.1 == built.value.1)
  {
    var step := MeritStep(images, tempDir, copyOk);
    var modelId := StableId(sha1, modelName);
    var deckId := StableId(sha1, deckName);
    var notes: seq<Note> := [];
    var media: seq<string> := [];
    for i := 0 to |mapped|
      invariant BuildNotes(mapped[..i], step) == Success((notes, media))
    {
      var (badge, imageName) := mapped[i];
      var source := Lookup(images, imageName);
      if source.None? {
        assert step(mapped[i]) == Failure(MissingImage(imageName));
        BuildNotesStopsAt(mapped, i, step);
        return Failure(MissingImage(imageName));
      }
      var imagePath := PathJoin(tempDir, imageName);
      if !copyOk(source.value, imagePath) {
        assert step(mapped[i]) == Failure(CopyFailed(imageName));
        BuildNotesStopsAt(mapped, i, step);
        return Failure(CopyFailed(imageName));
      }
      media := media + [imagePath];
      var note := CreateMeritBadgeNote(badge, imageName);
      if note.Failure? {
        assert step(mapped[i]) == Failure(note.error);
        BuildNotesStopsAt(mapped, i, step);
        return Failure(note.error);
      }
      assert step(mapped[i]) == Success((note.value, imagePath));
      BuildNotesExtends(mapped, i, step);
      notes := notes + [note.value];
    }
    assert mapped[..|mapped|] == mapped;
    r := Success((Deck(deckId, deckName, modelId, notes), media));
  }

  // ---------------------------------------------------------------------------
  // Adventure notes.

  /** `overview[:497] + "..."` when the overview is longer than 500 characters. */
  function TruncateOverview(overview: string): (r: string)
    ensures |r| <= 500
    ensures |overview| <= 500 ==> r == overview
    ensures |overview| > 500 ==> |r| == 500 && r[..497] == overview[..497] && r[497..] == "..."
  {
    if |overview| > 500 then overview[..497] + "..." else overview
  }

  /** Truncating twice is truncating once. */
  lemma TruncateIdempotent(overview: string)
    ensures TruncateOverview(TruncateOverview(overview)) == TruncateOverview(overview)
  {
  }

  /** The note of one adventure: image, name, rank, type and the truncated
      overview, with `str(adventure.stable_id)` as its GUID. */
  function AdventureNote(a: Adventure, imageName: string, pyHash: string -> int): (n: Note)
    ensures |n.fields| == 5 && n.fields[0] == ImgTag(imageName) && n.fields[1] == a.name
    ensures n.fields[2] == a.rank && n.fields[3] == a.kind && n.fields[4] == TruncateOverview(a.overview)
    ensures n.guid == GuidText(Text.NatToString(AdventureStableId(a.rank, a.name, pyHash)))
  {
    Note([ImgTag(imageName), a.name, a.rank, a.kind, TruncateOverview(a.overview)],
         GuidText(Text.NatToString(AdventureStableId(a.rank, a.name, pyHash))))
  }

  /** The pair's image is in the index and copies into the temporary directory. */
  function Copies(images: Index, tempDir: string, copyOk: (string, string) -> bool): ((Adventure, string)) -> bool
  {
    (p: (Adventure, string)) => Lookup(images, p.1).Some? && copyOk(Lookup(images, p.1).value, PathJoin(tempDir, p.1))
  }

  /** The pair's image name is not in the index. */
  function MissesImage(images: Index): ((Adventure, string)) -> bool
  {
    (p: (Adventure, string)) => p.1 !in KeySet(images)
  }

  /** The notes and media paths the loop of `create_adventure_deck` has
      produced after the pairs `mapped`, or the missing image that stopped it. */
  function AdventureBuild(mapped: seq<(Adventure, string)>, images: Index, tempDir: string,
                          pyHash: string -> int, copyOk: (string, string) -> bool)
    : Result<(seq<Note>, seq<string>), DeckError>
  {
    if |mapped| == 0 then Success(([], []))
    else
      match AdventureBuild(mapped[..|mapped| - 1], images, tempDir, pyHash, copyOk)
      case Failure(e) => Failure(e)
      case Success(built) =>
        var p := mapped[|mapped| - 1];
        match Lookup(images, p.1)
        case None => Failure(MissingImage(p.1))
        case Some(source) =>
          if !copyOk(source, PathJoin(tempDir, p.1)) then Success(built)
          else Success((built.0 + [AdventureNote(p.0, p.1, pyHash)], built.1 + [PathJoin(tempDir, p.1)]))
  }

  /** The build fails exactly when some image name is missing from the index,
      with the first such name; otherwise the pairs whose image copies give
      the notes and media paths, in order, one of each per pair. */
  lemma AdventureBuildSpec(mapped: seq<(Adventure, string)>, images: Index, tempDir: string,
                           pyHash: string -> int, copyOk: (string, string) -> bool)
    ensures var r := AdventureBuild(mapped, images, tempDir, pyHash, copyOk);
            var first := FirstWhere(mapped, MissesImage(images));
            var kept := Filter(mapped, Copies(images, tempDir, copyOk));
            && (r.Success? <==> first.None?)
            && (r.Failure? ==> r.error == MissingImage(mapped[first.value].1))
            && (r.Success? ==>
                  && |r.value.0| == |kept| && |r.value.1| == |kept|
                  && forall k :: 0 <= k < |kept| ==>
                       r.value.0[k] == AdventureNote(kept[k].0, kept[k].1, pyHash)
                       && r.value.1[k] == PathJoin(tempDir, kept[k].1))
  {
    AdventureBuildOutcome(mapped, images, tempDir, pyHash, copyOk);
    if AdventureBuild(mapped, images, tempDir, pyHash, copyOk).Success? {
      AdventureBuildContents(mapped, images, tempDir, pyHash, copyOk);
    }
  }

  lemma {:induction false} AdventureBuildOutcome(mapped: seq<(Adventure, string)>, images: Index, tempDir: string,
                                                 pyHash: string -> int, copyOk: (string, string) -> bool)
    ensures var r := AdventureBuild(mapped, images, tempDir, pyHash, copyOk);
            var first := FirstWhere(mapped, MissesImage(images));
            && (r.Success? <==> first.None?)
            && (r.Failure? ==> r.error == MissingImage(mapped[first.value].1))
  {
    if |mapped| > 0 {
      var init := mapped[..|mapped| - 1];
      var p := mapped[|mapped| - 1];
      assert init + [p] == mapped;
      AdventureBuildOutcome(init, images, tempDir, pyHash, copyOk);
      FirstWhereSnoc(init, p, MissesImage(images));
    }
  }

  /** `notes` holds the note of each pair of `kept`, in order. */
  predicate NotesOf(notes: seq<Note>, kept: seq<(Adventure, string)>, pyHash: string -> int)
  {
    |notes| == |kept| && forall k :: 0 <= k < |kept| ==> notes[k] == AdventureNote(kept[k].0, kept[k].1, pyHash)
  }

  /** `media` holds the copy path of each pair of `kept`, in order. */
  predicate PathsOf(media: seq<string>, kept: seq<(Adventure, string)>, tempDir: string)
  {
    |media| == |kept| && forall k :: 0 <= k < |kept| ==> media[k] == PathJoin(tempDir, kept[k].1)
  }

  lemma NotesOfSnoc(notes: seq<Note>, kept: seq<(Adventure, string)>, p: (Adventure, string), pyHash: string -> int)
    requires NotesOf(notes, kept, pyHash)
    ensures NotesOf(notes + [AdventureNote(p.0, p.1, pyHash)], kept + [p], pyHash)
  {
  }

  lemma PathsOfSnoc(media: seq<string>, kept: seq<(Adventure, string)>, p: (Adventure, string), tempDir: string)
    requires PathsOf(media, kept, tempDir)
    ensures PathsOf(media + [PathJoin(tempDir, p.1)], kept + [p], tempDir)
  {
  }

  lemma {:induction false} AdventureBuildContents(mapped: seq<(Adventure, string)>, images: Index, tempDir: string,
                                                  pyHash: string -> int, copyOk: (string, string) -> bool)
    requires AdventureBuild(mapped, images, tempDir, pyHash, copyOk).Success?
    ensures var built := AdventureBuild(mapped, images, tempDir, pyHash, copyOk).value;
            var kept := Filter(mapped, Copies(images, tempDir, copyOk));
            NotesOf(built.0, kept, pyHash) && PathsOf(built.1, kept, tempDir)
  {
    if |mapped| > 0 {
      var init := mapped[..|mapped| - 1];
      var p := mapped[|mapped| - 1];
      var copies := Copies(images, tempDir, copyOk);
      assert init + [p] == mapped;
      var prev := AdventureBuild(init, images, tempDir, pyHash, copyOk);
      assert prev.Success?;
      AdventureBuildContents(init, images, tempDir, pyHash, copyOk);
      var keptBefore := Filter(init, copies);
      FilterAppend(init, [p], copies);
      assert Filter([p], copies) == if copies(p) then [p] else [];
      if copies(p) {
        assert AdventureBuild(mapped, images, tempDir, pyHash, copyOk).value
               == (prev.value.0 + [AdventureNote(p.0, p.1, pyHash)], prev.value.1 + [PathJoin(tempDir, p.1)]);
        assert Filter(mapped, copies) == keptBefore + [p];
        NotesOfSnoc(prev.value.0, keptBefore, p, pyHash);
        PathsOfSnoc(prev.value.1, keptBefore, p, tempDir);
      } else {
        assert AdventureBuild(mapped, images, tempDir, pyHash, copyOk).value == prev.value;
        assert Filter(mapped, copies) == keptBefore;
      }
    }
  }

  /** `create_adventure_deck(deck_name, model_name, mapped, images)`: the deck
      and model ids derive from their names, and the notes and media paths
      are those of `AdventureBuild` (`AdventureBuildSpec` says what they are). */
  method CreateAdventureDeck(deckName: string, modelName: string, mapped: seq<(Adventure, string)>, images: Index,
                             tempDir: string, sha1: string -> Sha1Digest, pyHash: string -> int,
                             copyOk: (string, string) -> bool)
    returns (r: Result<(Deck, seq<string>), DeckError>)
    ensures var built := AdventureBuild(mapped, images, tempDir, pyHash, copyOk);
            && (r.Success? <==> built.Success?)
            && (r.Failure? ==> r.error == built.error)
            && (r.Success? ==>
                  && r.value.0 == Deck(StableId(sha1, deckName), deckName, StableId(sha1, modelName), built.value.0)
                  && r.value.1 == built.value.1)
  {
    var modelId := StableId(sha1, modelName);
    var deckId := StableId(sha1, deckName);
    var notes: seq<Note> := [];
    var media: seq<string> := [];
    for i := 0 to |mapped|
      invariant AdventureBuild(mapped[..i], images, tempDir, pyHash, copyOk) == Success((notes, media))
    {
      assert mapped[..i + 1][..i] == mapped[..i];
      var (adventure, imageName) := mapped[i];
      var source := Lookup(images, imageName);
      if source.None? {
        assert AdventureBuild(mapped[..i + 1], images, tempDir, pyHash, copyOk) == Failure(MissingImage(imageName));
        AdventureFailureSticks(mapped, i + 1, images, tempDir, pyHash, copyOk);
        return Failure(MissingImage(imageName));
      }
      var tempImagePath := PathJoin(tempDir, imageName);
      if !copyOk(source.value, tempImagePath) {
        continue;
      }
      media := media + [tempImagePath];
      notes := notes + [AdventureNote(adventure, imageName, pyHash)];
    }
    assert mapped[..|mapped|] == mapped;
    r := Success((Deck(deckId, deckName, modelId, notes), media));
  }

  /** Once the build over a prefix has failed, the whole build fails with
      the same error. */
  lemma {:induction false} AdventureFailureSticks(mapped: seq<(Adventure, string)>, i: nat, images: Index, tempDir: string,
                                                  pyHash: string -> int, copyOk: (string, string) -> bool)
    requires i <= |mapped| && AdventureBuild(mapped[..i], images, tempDir, pyHash, copyOk).Failure?
    ensures AdventureBuild(mapped, images, tempDir, pyHash, copyOk) == AdventureBuild(mapped[..i], images, tempDir, pyHash, copyOk)
    decreases |mapped| - i
  {
    if i < |mapped| {
      assert mapped[..i + 1][..i] == mapped[..i];
      AdventureFailureSticks(mapped, i + 1, images, tempDir, pyHash, copyOk);
    } else {
      assert mapped[..i] == mapped;
    }
  }
}
