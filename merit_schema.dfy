/** `scout_anki/merit_badges/schema.py`: a second copy of the badge record and
    of `normalize_badge_data`. The record is the one of module Badges; the
    loop is modelled again here, field by field as this copy writes it. */
module MeritBadgeSchema {
  import opened Wrappers
  import opened JsonValue
  import opened Badges

  /** `normalize_badge_data(data)` of this copy: it returns what the copy in
      module Badges returns, for every input. */
  method NormalizeBadgeData(data: Json, repr: Json -> string) returns (r: Result<seq<Badge>, SchemaError>)
    ensures r == Normalized(data, repr)
    ensures r.Success? ==> DistinctNames(r.value)
  {
    var badgeList: seq<Json>;
    if data.JArr? {
      badgeList := data.items;
    } else if data.JObj? {
      match BadgeItems(data) {
        case Failure(e) =>
          return Failure(e);
        case Success(xs) =>
          badgeList := xs;
      }
    } else {
      return Success([]);
    }
    var badges: seq<Badge> := [];
    var seenNames: set<string> := {};
    for i := 0 to |badgeList|
      invariant badges == KeepFirst(Candidates(badgeList[..i], repr))
      invariant seenNames == NameSet(badges)
    {
      var item := badgeList[i];
      CandidatesSnoc(badgeList, i, repr);
      var prev := Candidates(badgeList[..i], repr);
      if !item.JObj? {
        assert Candidate(item, repr).None?;
        assert Candidates(badgeList[..i + 1], repr) == prev;
        continue;
      }
      var name := FirstTruthyText(item.fields, NameKeys, repr);
      if name.None? || name.value == "" {
        assert Candidate(item, repr).None?;
        assert Candidates(badgeList[..i + 1], repr) == prev;
        continue;
      }
      if name.value in seenNames {
        var kept := Candidate(item, repr).value;
        assert kept.name == name.value;
        assert Candidates(badgeList[..i + 1], repr) == prev + [kept];
        KeepFirstSnoc(prev, kept);
        continue;
      }
      var description := FirstTruthyText(item.fields, DescriptionKeys, repr).GetOr("");
      var image := FirstTruthyText(item.fields, ImageKeys, repr);
      var imageFilename := ImageFilename(item.fields, repr);
      var eagleRequired := TruthyAt(item.fields, "is_eagle_required");
      var badge := Badge(name.value, description, image, imageFilename, Some("JSON"), eagleRequired);
      assert Candidate(item, repr) == Some(badge);
      assert Candidates(badgeList[..i + 1], repr) == prev + [badge];
      KeepFirstSnoc(prev, badge);
      NameSetSnoc(badges, badge);
      seenNames := seenNames + {name.value};
      badges := badges + [badge];
    }
    assert badgeList[..|badgeList|] == badgeList;
    KeepFirstDistinct(Candidates(badgeList, repr));
    r := Success(badges);
  }

  /** An item that is not an object, or whose first truthy name strips to
      nothing, leaves the result unchanged wherever it appears in a list. */
  lemma SkippedItemContributesNothing(before: seq<Json>, item: Json, after: seq<Json>, repr: Json -> string)
    requires !item.JObj? || ItemName(item, repr).None? || ItemName(item, repr).value == ""
    ensures Normalized(JArr(before + [item] + after), repr) == Normalized(JArr(before + after), repr)
  {
    CandidatesDropSkipped(before, item, after, repr);
  }

  lemma {:induction false} CandidatesDropSkipped(before: seq<Json>, item: Json, after: seq<Json>, repr: Json -> string)
    requires Candidate(item, repr).None?
    ensures Candidates(before + [item] + after, repr) == Candidates(before + after, repr)
  {
    if |after| == 0 {
      assert before + [item] + after == before + [item];
      assert (before + [item])[..|before|] == before;
      assert before + after == before;
    } else {
      var init := after[..|after| - 1];
      var x := after[|after| - 1];
      CandidatesDropSkipped(before, item, init, repr);
      assert (before + [item] + after)[..|before + [item] + init|] == before + [item] + init;
      assert (before + after)[..|before + init|] == before + init;
    }
  }

  /** An item whose name was already taken by an earlier item leaves the
      result unchanged: the first record of every name is the one kept. */
  lemma RepeatedNameIsDropped(items: seq<Json>, item: Json, repr: Json -> string)
    requires Normalized(JArr(items), repr).Success?
    requires Candidate(item, repr).Some?
    requires Candidate(item, repr).value.name in NameSet(Normalized(JArr(items), repr).value)
    ensures Normalized(JArr(items + [item]), repr) == Normalized(JArr(items), repr)
  {
    CandidatesAppend(items, item, repr);
    KeepFirstSnoc(Candidates(items, repr), Candidate(item, repr).value);
  }

  lemma CandidatesAppend(items: seq<Json>, item: Json, repr: Json -> string)
    ensures Candidates(items + [item], repr) ==
            Candidates(items, repr) + (if Candidate(item, repr).Some? then [Candidate(item, repr).value] else [])
  {
    assert (items + [item])[..|items|] == items;
  }
}
