/** The badge record and the tolerant JSON normaliser of `scout_anki/schema.py`
    (`Badge`, `normalize_badge_data`, `merge_badge_lists`). */
module Badges {
  import opened Wrappers
  import opened Seqs
  import Text
  import opened JsonValue

  datatype Badge = Badge(
    name: string,
    description: string,
    image: Option<string>,
    imageFilename: Option<string>,
    source: Option<string>,
    eagleRequired: bool)

  /** Keys under which a JSON object may wrap the list of badges, in priority order. */
  const WrapperKeys: seq<string> := ["badges", "items", "data", "meritBadges"]
  const NameKeys: seq<string> := ["name", "title", "badge"]
  const DescriptionKeys: seq<string> := ["overview", "description", "blurb", "summary"]
  const ImageKeys: seq<string> := ["image", "img", "icon"]

  /** The `TypeError` Python raises when the loop iterates a number, a boolean
      or `null`. */
  datatype SchemaError = NotIterable

  /** The items `for item in v` visits. Iterating a string or an object yields
      only strings, which the loop skips, so those are handed over as no items. */
  function IterItems(v: Json): (r: Result<seq<Json>, SchemaError>)
    ensures r.Failure? <==> v.JNull? || v.JBool? || v.JNum?
    ensures v.JArr? ==> r == Success(v.items)
    ensures v.JStr? || v.JObj? ==> r == Success([])
  {
    match v
    case JArr(items) => Success(items)
    case JStr(_) => Success([])
    case JObj(_) => Success([])
    case _ => Failure(NotIterable)
  }

  /** The list of candidate records: the value itself when it is a list; for an
      object, the value of the first wrapper key present (present, not truthy),
      or the object alone when no wrapper key is present; no items otherwise. */
  function BadgeItems(data: Json): (r: Result<seq<Json>, SchemaError>)
    ensures data.JArr? ==> r == Success(data.items)
    ensures !data.JArr? && !data.JObj? ==> r == Success([])
    ensures data.JObj? && (forall k :: 0 <= k < |WrapperKeys| ==> WrapperKeys[k] !in data.fields)
            ==> r == Success([data])
    ensures data.JObj? ==>
            forall i :: 0 <= i < |WrapperKeys| && WrapperKeys[i] in data.fields
                        && (forall j :: 0 <= j < i ==> WrapperKeys[j] !in data.fields)
                        ==> r == IterItems(data.fields[WrapperKeys[i]])
  {
    match data
    case JArr(items) => Success(items)
    case JObj(fields) =>
      (match FirstWhere(WrapperKeys, k => k in fields)
       case Some(i) => IterItems(fields[WrapperKeys[i]])
       case None => Success([data]))
    case _ => Success([])
  }

  /** The stripped text of the first name key with a truthy value; `None` for a
      non-object or when no name key is truthy. A stripped name may be empty:
      later keys are then not consulted. */
  function ItemName(item: Json, repr: Json -> string): (r: Option<string>)
    ensures !item.JObj? ==> r.None?
    ensures item.JObj? ==> r == FirstTruthyText(item.fields, NameKeys, repr)
  {
    if item.JObj? then FirstTruthyText(item.fields, NameKeys, repr) else None
  }

  /** `image_filename`: stripped text when the key holds a truthy value, else `None`. */
  function ImageFilename(fields: map<string, Json>, repr: Json -> string): (r: Option<string>)
    ensures r.Some? <==> TruthyAt(fields, "image_filename")
    ensures r.Some? ==> r.value == Text.Strip(PyStr(fields["image_filename"], repr))
  {
    if TruthyAt(fields, "image_filename") then Some(Text.Strip(PyStr(fields["image_filename"], repr))) else None
  }

  /** The record built for an item whose name has been accepted. */
  function BuildBadge(fields: map<string, Json>, name: string, repr: Json -> string): (b: Badge)
    ensures b.name == name && b.source == Some("JSON")
    ensures b.eagleRequired == TruthyAt(fields, "is_eagle_required")
    ensures b.description == FirstTruthyText(fields, DescriptionKeys, repr).GetOr("")
    ensures b.image == FirstTruthyText(fields, ImageKeys, repr)
    ensures b.imageFilename == ImageFilename(fields, repr)
  {
    Badge(
      name,
      FirstTruthyText(fields, DescriptionKeys, repr).GetOr(""),
      FirstTruthyText(fields, ImageKeys, repr),
      ImageFilename(fields, repr),
      Some("JSON"),
      TruthyAt(fields, "is_eagle_required"))
  }

  /** The record an item contributes before de-duplication: objects with a
      non-empty stripped name. */
  function Candidate(item: Json, repr: Json -> string): (r: Option<Badge>)
    ensures r.Some? <==> item.JObj? && ItemName(item, repr).Some? && ItemName(item, repr).value != ""
    ensures r.Some? ==> r.value == BuildBadge(item.fields, ItemName(item, repr).value, repr)
  {
    match ItemName(item, repr)
    case Some(n) => if n != "" then Some(BuildBadge(item.fields, n, repr)) else None
    case None => None
  }

  /** Every record has a non-empty name and came from JSON. */
  predicate NamedFromJson(bs: seq<Badge>)
  {
    forall k :: 0 <= k < |bs| ==> bs[k].name != "" && bs[k].source == Some("JSON")
  }

  lemma NamedFromJsonSnoc(bs: seq<Badge>, b: Badge)
    requires NamedFromJson(bs) && b.name != "" && b.source == Some("JSON")
    ensures NamedFromJson(bs + [b])
  {
  }

  /** The candidate records of `items`, in order. */
  function Candidates(items: seq<Json>, repr: Json -> string): (r: seq<Badge>)
    ensures NamedFromJson(r)
  {
    if |items| == 0 then []
    else
      var prev := Candidates(items[..|items| - 1], repr);
      var last := Candidate(items[|items| - 1], repr);
      if last.Some? then
        NamedFromJsonSnoc(prev, last.value);
        prev + [last.value]
      else prev
  }

  lemma CandidatesSnoc(items: seq<Json>, i: nat, repr: Json -> string)
    requires i < |items|
    ensures Candidates(items[..i + 1], repr) ==
            Candidates(items[..i], repr) + (if Candidate(items[i], repr).Some? then [Candidate(items[i], repr).value] else [])
  {
    assert items[..i + 1][..i] == items[..i];
  }

  function NameSet(bs: seq<Badge>): set<string>
  {
    set i | 0 <= i < |bs| :: bs[i].name
  }

  /** Left-to-right de-duplication by name, keeping the first record of each
      name: the `seen_names` loop of `normalize_badge_data` and of
      `merge_badge_lists`. */
  function KeepFirst(bs: seq<Badge>): seq<Badge>
  {
    if |bs| == 0 then []
    else
      var kept := KeepFirst(bs[..|bs| - 1]);
      var b := bs[|bs| - 1];
      if b.name in NameSet(kept) then kept else kept + [b]
  }

  /** What `normalize_badge_data(data)` returns, or the `TypeError` it raises. */
  function Normalized(data: Json, repr: Json -> string): Result<seq<Badge>, SchemaError>
  {
    match BadgeItems(data)
    case Failure(e) => Failure(e)
    case Success(items) => Success(KeepFirst(Candidates(items, repr)))
  }

  predicate DistinctNames(bs: seq<Badge>)
  {
    forall i, j :: 0 <= i < j < |bs| ==> bs[i].name != bs[j].name
  }

  // ---------------------------------------------------------------------------
  // The first-occurrence characterisation of KeepFirst.

  /** No earlier record carries the same name. */
  predicate IsFirstOccurrence(bs: seq<Badge>, k: nat)
    requires k < |bs|
  {
    forall j :: 0 <= j < k ==> bs[j].name != bs[k].name
  }

  /** Indices of the first occurrences of each name, ascending: an independent
      description of what KeepFirst keeps. */
  function FirstOccurrences(bs: seq<Badge>): seq<nat>
  {
    if |bs| == 0 then []
    else FirstOccurrences(bs[..|bs| - 1]) + (if IsFirstOccurrence(bs, |bs| - 1) then [|bs| - 1] else [])
  }

  lemma {:induction false} FirstOccurrencesSpec(bs: seq<Badge>)
    ensures forall i :: 0 <= i < |FirstOccurrences(bs)| ==> FirstOccurrences(bs)[i] < |bs|
    ensures forall i, j :: 0 <= i < j < |FirstOccurrences(bs)| ==> FirstOccurrences(bs)[i] < FirstOccurrences(bs)[j]
    ensures forall k :: 0 <= k < |bs| ==> (k in FirstOccurrences(bs) <==> IsFirstOccurrence(bs, k))
  {
    if |bs| > 0 {
      var init := bs[..|bs| - 1];
      FirstOccurrencesSpec(init);
      forall k | 0 <= k < |init| ensures IsFirstOccurrence(init, k) == IsFirstOccurrence(bs, k) {
      }
    }
  }

  lemma {:induction false} NameSetSnoc(bs: seq<Badge>, b: Badge)
    ensures NameSet(bs + [b]) == NameSet(bs) + {b.name}
  {
    var s := bs + [b];
    assert s[|bs|] == b;
    forall x | x in NameSet(bs) ensures x in NameSet(s) {
      var i :| 0 <= i < |bs| && bs[i].name == x;
      assert s[i] == bs[i];
    }
  }

  /** Every name of the input survives de-duplication. */
  lemma {:induction false} KeepFirstNames(bs: seq<Badge>)
    ensures NameSet(KeepFirst(bs)) == NameSet(bs)
  {
    if |bs| > 0 {
      var init := bs[..|bs| - 1];
      var b := bs[|bs| - 1];
      KeepFirstNames(init);
      NameSetSnoc(init, b);
      assert bs == init + [b];
      if b.name !in NameSet(KeepFirst(init)) {
        NameSetSnoc(KeepFirst(init), b);
      }
    }
  }

  /** De-duplication keeps exactly the first record of every name, in input
      order: the output is the input restricted to FirstOccurrences. */
  lemma {:induction false} KeepFirstIsFirstOccurrences(bs: seq<Badge>)
    ensures |KeepFirst(bs)| == |FirstOccurrences(bs)|
    ensures forall i :: 0 <= i < |KeepFirst(bs)| ==>
              FirstOccurrences(bs)[i] < |bs| && KeepFirst(bs)[i] == bs[FirstOccurrences(bs)[i]]
  {
    if |bs| > 0 {
      var n := |bs| - 1;
      var init := bs[..n];
      var b := bs[n];
      KeepFirstIsFirstOccurrences(init);
      KeepFirstNames(init);
      assert b.name in NameSet(init) <==> !IsFirstOccurrence(bs, n) by {
        if b.name in NameSet(init) {
          var j :| 0 <= j < |init| && init[j].name == b.name;
          assert bs[j].name == bs[n].name;
        }
        if !IsFirstOccurrence(bs, n) {
          var j :| 0 <= j < n && bs[j].name == bs[n].name;
          assert init[j].name == b.name;
        }
      }
    }
  }

  /** De-duplication leaves pairwise distinct names. */
  lemma KeepFirstDistinct(bs: seq<Badge>)
    ensures DistinctNames(KeepFirst(bs))
  {
    KeepFirstIsFirstOccurrences(bs);
    FirstOccurrencesSpec(bs);
    var k := KeepFirst(bs);
    var f := FirstOccurrences(bs);
    forall i, j | 0 <= i < j < |k| ensures k[i].name != k[j].name {
      assert f[i] < f[j];
      assert f[j] in f;
      assert IsFirstOccurrence(bs, f[j]);
    }
  }

  /** Every record KeepFirst returns comes from its input. */
  lemma KeepFirstSubset(bs: seq<Badge>)
    ensures forall b :: b in KeepFirst(bs) ==> b in bs
  {
    KeepFirstIsFirstOccurrences(bs);
  }

  /** Normalised badges have non-empty, pairwise distinct names, all come from
      the item list, are tagged with source `JSON`, and are exactly the first
      record of each name among the candidates, in input order. */
  lemma NormalizedProperties(data: Json, repr: Json -> string)
    requires Normalized(data, repr).Success?
    ensures var r := Normalized(data, repr).value;
            var c := Candidates(BadgeItems(data).value, repr);
            && DistinctNames(r)
            && (forall i :: 0 <= i < |r| ==> r[i].name != "" && r[i].source == Some("JSON"))
            && NameSet(r) == NameSet(c)
            && |r| == |FirstOccurrences(c)|
            && (forall i :: 0 <= i < |r| ==> FirstOccurrences(c)[i] < |c| && r[i] == c[FirstOccurrences(c)[i]])
  {
    var c := Candidates(BadgeItems(data).value, repr);
    KeepFirstDistinct(c);
    KeepFirstNames(c);
    KeepFirstIsFirstOccurrences(c);
  }

  // ---------------------------------------------------------------------------
  // The imperative loops.

  lemma KeepFirstSnoc(bs: seq<Badge>, b: Badge)
    ensures KeepFirst(bs + [b]) == if b.name in NameSet(KeepFirst(bs)) then KeepFirst(bs) else KeepFirst(bs) + [b]
  {
    assert (bs + [b])[..|bs|] == bs;
  }

  /** `normalize_badge_data(data)`: select the item list, then walk it once,
      skipping non-objects, nameless items and repeated names. */
  method NormalizeBadgeData(data: Json, repr: Json -> string) returns (r: Result<seq<Badge>, SchemaError>)
    ensures r == Normalized(data, repr)
    ensures r.Failure? <==> data.JObj? && BadgeItems(data).Failure?
    ensures r.Success? ==> DistinctNames(r.value)
    ensures r.Success? ==> forall i :: 0 <= i < |r.value| ==> r.value[i].name != ""
  {
    var items: seq<Json>;
    match BadgeItems(data) {
      case Failure(e) =>
        return Failure(e);
      case Success(xs) =>
        items := xs;
    }
    var badges: seq<Badge> := [];
    var seenNames: set<string> := {};
    for i := 0 to |items|
      invariant badges == KeepFirst(Candidates(items[..i], repr))
      invariant seenNames == NameSet(badges)
    {
      var item := items[i];
      CandidatesSnoc(items, i, repr);
      var prev := Candidates(items[..i], repr);
      if !item.JObj? {
        assert Candidate(item, repr).None?;
        assert Candidates(items[..i + 1], repr) == prev;
        continue;
      }
      var name := ItemName(item, repr);
      if name.None? || name.value == "" {
        assert Candidate(item, repr).None?;
        assert Candidates(items[..i + 1], repr) == prev;
        continue;
      }
      var b := BuildBadge(item.fields, name.value, repr);
      assert Candidate(item, repr) == Some(b);
      assert Candidates(items[..i + 1], repr) == prev + [b];
      KeepFirstSnoc(prev, b);
      if name.value in seenNames {
        continue;
      }
      NameSetSnoc(badges, b);
      seenNames := seenNames + {name.value};
      badges := badges + [b];
    }
    assert items[..|items|] == items;
    KeepFirstDistinct(Candidates(items, repr));
    KeepFirstSubset(Candidates(items, repr));
    forall k | 0 <= k < |badges| ensures badges[k].name != "" {
      assert badges[k] in Candidates(items, repr);
    }
    r := Success(badges);
  }

  lemma FlattenSnoc(lists: seq<seq<Badge>>, i: nat)
    requires i < |lists|
    ensures Flatten(lists[..i + 1]) == Flatten(lists[..i]) + lists[i]
  {
    assert lists[..i + 1][..i] == lists[..i];
  }

  /** One list of `merge_badge_lists`: appends each badge whose name is not
      yet seen, given that `merged` de-duplicates the badges already walked. */
  method MergeList(merged: seq<Badge>, seenNames: set<string>, ghost processed: seq<Badge>, badgeList: seq<Badge>)
    returns (merged': seq<Badge>, seenNames': set<string>)
    requires merged == KeepFirst(processed) && seenNames == NameSet(merged)
    ensures merged' == KeepFirst(processed + badgeList)
    ensures seenNames' == NameSet(merged')
  {
    merged', seenNames' := merged, seenNames;
    assert processed + badgeList[..0] == processed;
    for j := 0 to |badgeList|
      invariant merged' == KeepFirst(processed + badgeList[..j])
      invariant seenNames' == NameSet(merged')
    {
      var badge := badgeList[j];
      assert processed + badgeList[..j + 1] == (processed + badgeList[..j]) + [badge];
      KeepFirstSnoc(processed + badgeList[..j], badge);
      if badge.name !in seenNames' {
        NameSetSnoc(merged', badge);
        merged' := merged' + [badge];
        seenNames' := seenNames' + {badge.name};
      }
    }
    assert badgeList[..|badgeList|] == badgeList;
  }

  /** `merge_badge_lists(lists)`: the lists concatenated, keeping the first
      badge of every name, in order. */
  method MergeBadgeLists(badgeLists: seq<seq<Badge>>) returns (merged: seq<Badge>)
    ensures merged == KeepFirst(Flatten(badgeLists))
    ensures DistinctNames(merged)
    ensures NameSet(merged) == NameSet(Flatten(badgeLists))
  {
    merged := [];
    var seenNames: set<string> := {};
    for i := 0 to |badgeLists|
      invariant merged == KeepFirst(Flatten(badgeLists[..i]))
      invariant seenNames == NameSet(merged)
    {
      merged, seenNames := MergeList(merged, seenNames, Flatten(badgeLists[..i]), badgeLists[i]);
      FlattenSnoc(badgeLists, i);
    }
    assert badgeLists[..|badgeLists|] == badgeLists;
    KeepFirstDistinct(Flatten(badgeLists));
    KeepFirstNames(Flatten(badgeLists));
  }
}
