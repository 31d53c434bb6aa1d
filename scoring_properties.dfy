/** What the matchers and the type score promise beyond their own contracts. */
module ScoringProperties {
  import opened Questions
  import opened Scoring

  /** The count depends only on which tags the user has, not on how often. */
  lemma {:induction false} CountFoundSameSet(typeTags: seq<string>, u1: seq<string>, u2: seq<string>)
    requires forall x :: x in u1 <==> x in u2
    ensures CountFound(typeTags, u1) == CountFound(typeTags, u2)
  {
    if typeTags != [] {
      CountFoundSameSet(typeTags[..|typeTags| - 1], u1, u2);
    }
  }

  /** So the lifestyle and building shares ignore duplicate user tags. */
  lemma FoundShareSameSet(u1: seq<string>, u2: seq<string>, typeTags: seq<string>, none: real)
    requires 0.0 <= none <= 1.0
    requires forall x :: x in u1 <==> x in u2
    ensures FoundShare(u1, typeTags, none) == FoundShare(u2, typeTags, none)
  {
    if u1 != [] {
      assert u1[0] in u2;
    }
    if u2 != [] {
      assert u2[0] in u1;
    }
    CountFoundSameSet(typeTags, u1, u2);
  }

  /** Repeating a tag the user already has changes neither share. */
  lemma DuplicateTagIgnored(u: seq<string>, x: string, typeTags: seq<string>)
    requires x in u
    ensures LifestyleMatch(u + [x], typeTags) == LifestyleMatch(u, typeTags)
    ensures BuildingMatch(u + [x], typeTags) == BuildingMatch(u, typeTags)
  {
    assert forall y :: y in u + [x] <==> y in u;
    FoundShareSameSet(u + [x], u, typeTags, 0.3);
    FoundShareSameSet(u + [x], u, typeTags, 0.5);
  }

  /** Every tag of the type is found exactly when the count is full. */
  lemma {:induction false} CountFoundAll(typeTags: seq<string>, u: seq<string>)
    ensures CountFound(typeTags, u) == |typeTags| <==> forall i :: 0 <= i < |typeTags| ==> typeTags[i] in u
  {
    if typeTags != [] {
      var init := typeTags[..|typeTags| - 1];
      CountFoundAll(init, u);
      assert forall i :: 0 <= i < |init| ==> init[i] == typeTags[i];
    }
  }

  /** No tag of the type is found exactly when the count is zero. */
  lemma {:induction false} CountFoundNone(typeTags: seq<string>, u: seq<string>)
    ensures CountFound(typeTags, u) == 0 <==> forall i :: 0 <= i < |typeTags| ==> typeTags[i] !in u
  {
    if typeTags != [] {
      var init := typeTags[..|typeTags| - 1];
      CountFoundNone(init, u);
      assert forall i :: 0 <= i < |init| ==> init[i] == typeTags[i];
    }
  }

  /** With tags on both sides, the share is 1 exactly when the user has every
      tag of the type, and 0 exactly when the user has none of them. */
  lemma FoundShareExtremes(u: seq<string>, typeTags: seq<string>, none: real)
    requires 0.0 <= none <= 1.0
    requires u != [] && typeTags != []
    ensures FoundShare(u, typeTags, none) == 1.0 <==> forall i :: 0 <= i < |typeTags| ==> typeTags[i] in u
    ensures FoundShare(u, typeTags, none) == 0.0 <==> forall i :: 0 <= i < |typeTags| ==> typeTags[i] !in u
  {
    CountFoundAll(typeTags, u);
    CountFoundNone(typeTags, u);
    var n := |typeTags| as real;
    var c := CountFound(typeTags, u) as real;
    assert FoundShare(u, typeTags, none) == c / n;
    assert n > 0.0;
    RatioExtremes(c, n);
  }

  /** A quotient is 1 exactly for equal operands and 0 exactly for a zero
      dividend. */
  lemma RatioExtremes(c: real, n: real)
    requires n > 0.0
    ensures c / n == 1.0 <==> c == n
    ensures c / n == 0.0 <==> c == 0.0
  {
    var q := c / n;
    assert c == q * n;
  }

  /** A type every one of whose tags the user chose reaches the maximum. */
  lemma PerfectMatch(user: UserTags, catalog: Catalog, typeId: string)
    requires typeId in catalog
    requires catalog[typeId].location in user.location
    requires catalog[typeId].cost in user.cost
    requires user.lifestyle != [] && forall t :: t in catalog[typeId].lifestyle ==> t in user.lifestyle
    requires user.building != [] && catalog[typeId].building != []
    requires forall t :: t in catalog[typeId].building ==> t in user.building
    requires catalog[typeId].security in user.security
    requires catalog[typeId].screening in user.screening
    ensures TypeScore(user, catalog, typeId) == MaxScore(catalog[typeId])
  {
    var t := catalog[typeId];
    if t.lifestyle != [] {
      FoundShareExtremes(user.lifestyle, t.lifestyle, 0.3);
    }
    FoundShareExtremes(user.building, t.building, 0.5);
  }
}
