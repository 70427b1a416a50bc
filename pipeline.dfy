/** `DeckProcessor.build_deck` of `scout_anki/processor.py`: default
    substitution and the fixed order of checks and effects shared by the
    merit-badge and adventure processors. */
module Pipeline {
  import opened Wrappers
  import opened Images
  import opened Partition
  import opened Summaries

  /** A processor's `get_defaults()`. */
  datatype Defaults = Defaults(out: string, deckName: string, modelName: string)

  /** The options as given on the command line; `None` when not given. */
  datatype Options = Options(out: Option<string>, deckName: Option<string>, modelName: Option<string>, dryRun: bool)

  /** `if not x: x = default`: a missing or empty option takes the default. */
  function WithDefault(given: Option<string>, default: string): (r: string)
    ensures given.Some? && given.value != "" ==> r == given.value
    ensures given.None? || given.value == "" ==> r == default
  {
    if given.Some? && given.value != "" then given.value else default
  }

  /** How a build ends: one of the two errors raised, `sys.exit(4)`, a
      completed dry run, the error the deck builder raised, or a written
      package. */
  datatype Outcome<E> =
    | NoBadgesFound
    | NoImagesFound
    | Exit(code: int)
    | DryRunComplete
    | BuildFailed(error: E)
    | PackageWritten(out: string)

  /** The effects a build performs, in order. */
  datatype Step =
    | SummaryPrinted(summary: Summary, dryRun: bool)
    | DeckCreated(deckName: string, modelName: string, notes: nat)
    | PackageWrite(out: string)
    | TempFilesCleaned

  /** `build_deck(directory, out, deck_name, model_name, dry_run)` once the
      directory has been read into `content` and `images`, with `find` the
      processor's lookup, `nameOf`/`expected` its summary fields and `build`
      its `create_deck` on the mapped pairs: the number of notes of the deck
      it makes, or the exception it raises. */
  method BuildDeck<T, E>(opts: Options, defaults: Defaults, content: seq<T>, images: Index,
                         find: T -> Option<string>, nameOf: T -> string, expected: T -> Option<string>,
                         build: seq<(T, string)> -> Result<nat, E>)
    returns (outcome: Outcome<E>, trace: seq<Step>)
    ensures content == [] ==> outcome == NoBadgesFound && trace == []
    ensures content != [] && images == [] ==> outcome == NoImagesFound && trace == []
    ensures content != [] && images != [] ==>
              |trace| >= 1 && trace[0].SummaryPrinted? && trace[0].dryRun == opts.dryRun
              && trace[0].summary.totalContent == |content|
              && trace[0].summary.mapped == |MappedPart(content, find)|
              && trace[0].summary.unmapped == |UnmappedPart(content, find)|
    ensures outcome == Exit(4) <==> content != [] && images != [] && MappedPart(content, find) == []
    ensures outcome == Exit(4) ==> |trace| == 1
    ensures opts.dryRun ==> forall k :: 0 <= k < |trace| ==> trace[k].SummaryPrinted?
    ensures outcome == DryRunComplete <==>
              content != [] && images != [] && MappedPart(content, find) != [] && opts.dryRun
    ensures outcome.BuildFailed? <==>
              content != [] && images != [] && MappedPart(content, find) != [] && !opts.dryRun
              && build(MappedPart(content, find)).Failure?
    ensures outcome.BuildFailed? ==> outcome.error == build(MappedPart(content, find)).error && |trace| == 1
    ensures outcome.PackageWritten? <==>
              content != [] && images != [] && MappedPart(content, find) != [] && !opts.dryRun
              && build(MappedPart(content, find)).Success?
    ensures outcome.PackageWritten? ==>
              outcome.out == WithDefault(opts.out, defaults.out)
              && |trace| == 4
              && trace[1] == DeckCreated(WithDefault(opts.deckName, defaults.deckName),
                                         WithDefault(opts.modelName, defaults.modelName),
                                         build(MappedPart(content, find)).value)
              && trace[2] == PackageWrite(outcome.out)
              && trace[3] == TempFilesCleaned
  {
    var out := opts.out.GetOr("");
    var deckName := opts.deckName.GetOr("");
    var modelName := opts.modelName.GetOr("");
    if out == "" {
      out := defaults.out;
    }
    if deckName == "" {
      deckName := defaults.deckName;
    }
    if modelName == "" {
      modelName := defaults.modelName;
    }
    assert out == WithDefault(opts.out, defaults.out);
    assert deckName == WithDefault(opts.deckName, defaults.deckName);
    assert modelName == WithDefault(opts.modelName, defaults.modelName);
    trace := [];
    if content == [] {
      return NoBadgesFound, trace;
    }
    if images == [] {
      return NoImagesFound, trace;
    }
    var mapped, unmapped := PartitionBy(content, find);
    var summary := MappingSummary(content, images, mapped, unmapped, nameOf, expected);
    outcome, trace := FinishBuild(summary, mapped, build, opts.dryRun, out, deckName, modelName);
  }

  /** The part of `build_deck` after mapping: print the summary, stop with
      exit code 4 when nothing mapped, else build and write unless dry; an
      exception of the builder ends the build before anything is written or
      cleaned. */
  method FinishBuild<T, E>(summary: Summary, mapped: seq<(T, string)>, build: seq<(T, string)> -> Result<nat, E>,
                           dryRun: bool, out: string, deckName: string, modelName: string)
    returns (outcome: Outcome<E>, trace: seq<Step>)
    ensures |trace| >= 1 && trace[0] == SummaryPrinted(summary, dryRun)
    ensures outcome == Exit(4) <==> mapped == []
    ensures outcome == Exit(4) ==> |trace| == 1
    ensures dryRun ==> forall k :: 0 <= k < |trace| ==> trace[k].SummaryPrinted?
    ensures outcome == DryRunComplete <==> mapped != [] && dryRun
    ensures outcome.BuildFailed? <==> mapped != [] && !dryRun && build(mapped).Failure?
    ensures outcome.BuildFailed? ==> outcome.error == build(mapped).error && |trace| == 1
    ensures outcome.PackageWritten? <==> mapped != [] && !dryRun && build(mapped).Success?
    ensures outcome.PackageWritten? ==>
              outcome.out == out && trace == [SummaryPrinted(summary, dryRun), DeckCreated(deckName, modelName, build(mapped).value),
                                              PackageWrite(out), TempFilesCleaned]
  {
    trace := [SummaryPrinted(summary, dryRun)];
    if mapped == [] {
      return Exit(4), trace;
    }
    if !dryRun {
      var built := build(mapped);
      if built.Failure? {
        return BuildFailed(built.error), trace;
      }
      trace := trace + [DeckCreated(deckName, modelName, built.value)];
      trace := trace + [PackageWrite(out)];
      trace := trace + [TempFilesCleaned];
      outcome := PackageWritten(out);
    } else {
      outcome := DryRunComplete;
    }
  }
}
