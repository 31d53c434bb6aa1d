/** The tag-matching scoring engine: six per-category matchers, the weighted
    score of one housing type, and the choice of the best type. The catalog
    of housing types and its fixed order are parameters. */
module Scoring {
  import opened JsRuntime
  import opened Questions

  /** The tag profile of a housing type (the `tags` of a catalog entry). */
  datatype TypeTags = TypeTags(
    location: string,
    cost: string,
    lifestyle: seq<string>,
    building: seq<string>,
    security: string,
    screening: string)

  /** Housing types by id; only their tag profiles matter here. */
  type Catalog = map<string, TypeTags>

  /** What `calculateScore` returns. */
  datatype ScoreResult = ScoreResult(typeId: string, scores: map<string, real>, userTags: UserTags)

  datatype Weights = Weights(location: nat, cost: nat, lifestyle: nat, building: nat, security: nat, screening: nat)

  /** `TAG_WEIGHTS`: how much each category counts (lifestyle per tag). */
  const TagWeights: Weights := Weights(20, 15, 8, 10, 5, 5)

  // ---------------------------------------------------------------------
  // The six matchers, each a degree of agreement in [0, 1]
  // ---------------------------------------------------------------------

  /** Location: an exact hit counts fully; "Mid" on either side is a partial
      hit; no evidence is neutral. */
  function MatchLocation(userLocs: seq<string>, typeLoc: string): (r: real)
    ensures 0.0 <= r <= 1.0
    ensures userLocs == [] ==> r == 0.5
    ensures userLocs != [] ==> (r == 1.0 <==> typeLoc in userLocs)
    ensures userLocs != [] && typeLoc !in userLocs ==>
              r == (if "Mid" in userLocs || typeLoc == "Mid" then 0.7 else 0.0)
  {
    if |userLocs| == 0 then 0.5
    else if typeLoc in userLocs then 1.0
    else if "Mid" in userLocs then 0.7
    else if typeLoc == "Mid" then 0.7
    else 0.0
  }

  /** Cost: a hit counts fully, a miss still earns 0.3. */
  function MatchCost(userCosts: seq<string>, typeCost: string): (r: real)
    ensures 0.0 <= r <= 1.0
    ensures userCosts == [] ==> r == 0.5
    ensures userCosts != [] ==> r == (if typeCost in userCosts then 1.0 else 0.3)
  {
    if |userCosts| == 0 then 0.5
    else if typeCost in userCosts then 1.0
    else 0.3
  }

  /** How many of the type's tags (counted with their repetitions in the
      type's list) occur somewhere in the user's list. */
  function CountFound(typeTags: seq<string>, userTags: seq<string>): (n: nat)
    ensures n <= |typeTags|
  {
    if typeTags == [] then 0
    else CountFound(typeTags[..|typeTags| - 1], userTags)
         + (if typeTags[|typeTags| - 1] in userTags then 1 else 0)
  }

  /** The share of the type's tags the user has; `none` when either side has
      no tags (0.3 for lifestyle, 0.5 for building). */
  function FoundShare(userTags: seq<string>, typeTags: seq<string>, none: real): (r: real)
    requires 0.0 <= none <= 1.0
    ensures 0.0 <= r <= 1.0
    ensures userTags == [] || typeTags == [] ==> r == none
  {
    if |userTags| == 0 || |typeTags| == 0 then none
    else CountFound(typeTags, userTags) as real / |typeTags| as real
  }

  /** What `matchLifestyle` returns: the share found, 0.3 without evidence. */
  function LifestyleMatch(userTags: seq<string>, typeTags: seq<string>): (r: real)
    ensures 0.0 <= r <= 1.0
    ensures userTags == [] || typeTags == [] ==> r == 0.3
  {
    FoundShare(userTags, typeTags, 0.3)
  }

  /** What `matchBuilding` returns: the share found, 0.5 without evidence. */
  function BuildingMatch(userTags: seq<string>, typeTags: seq<string>): (r: real)
    ensures 0.0 <= r <= 1.0
    ensures userTags == [] || typeTags == [] ==> r == 0.5
  {
    FoundShare(userTags, typeTags, 0.5)
  }

  /** `matchLifestyle`: count the type's tags the user has, as a share. */
  method MatchLifestyle(userTags: seq<string>, typeTags: seq<string>) returns (r: real)
    ensures r == LifestyleMatch(userTags, typeTags)
  {
    if |userTags| == 0 {
      return 0.3;
    }
    if |typeTags| == 0 {
      return 0.3;
    }
    var matches := CountMatches(userTags, typeTags);
    r := matches as real / |typeTags| as real;
  }

  /** `matchBuilding`: the same count, with 0.5 when either side is empty. */
  method MatchBuilding(userTags: seq<string>, typeTags: seq<string>) returns (r: real)
    ensures r == BuildingMatch(userTags, typeTags)
  {
    if |userTags| == 0 {
      return 0.5;
    }
    if |typeTags| == 0 {
      return 0.5;
    }
    var matches := CountMatches(userTags, typeTags);
    r := matches as real / |typeTags| as real;
  }

  /** The `typeTags.forEach(... matches++)` loop of both matchers. */
  method CountMatches(userTags: seq<string>, typeTags: seq<string>) returns (matches: nat)
    ensures matches == CountFound(typeTags, userTags)
  {
    matches := 0;
    for i := 0 to |typeTags|
      invariant matches == CountFound(typeTags[..i], userTags)
    {
      assert typeTags[..i + 1][..i] == typeTags[..i];
      if typeTags[i] in userTags {
        matches := matches + 1;
      }
    }
    assert typeTags[..|typeTags|] == typeTags;
  }

  /** Security is asymmetric: a user who asks for High security is poorly
      served by a Normal type (0.3), one content with Normal security is well
      served by a High type (0.8). */
  function MatchSecurity(userSec: seq<string>, typeSec: string): (r: real)
    ensures 0.0 <= r <= 1.0
    ensures userSec == [] ==> r == 0.5
    ensures userSec != [] ==> (r == 1.0 <==> typeSec in userSec)
    ensures typeSec == "Normal" && "Normal" !in userSec && "High" in userSec ==> r == 0.3
    ensures typeSec == "High" && "High" !in userSec && "Normal" in userSec ==> r == 0.8
    ensures (userSec != [] && typeSec !in userSec
             && !(typeSec == "Normal" && "High" in userSec) && !(typeSec == "High" && "Normal" in userSec)) ==> r == 0.5
  {
    if |userSec| == 0 then 0.5
    else if typeSec in userSec then 1.0
    else if "High" in userSec && typeSec == "Normal" then 0.3
    else if "Normal" in userSec && typeSec == "High" then 0.8
    else 0.5
  }

  /** The screening levels, from least to most anxious. */
  const Levels: seq<string> := ["Low", "Mid", "High"]

  /** `levels.indexOf(s)`: the first position of s, or -1. */
  function IndexOf(levels: seq<string>, s: string): (k: int)
    ensures -1 <= k < |levels|
    ensures k >= 0 ==> levels[k] == s && forall j :: 0 <= j < k ==> levels[j] != s
    ensures k == -1 ==> s !in levels
  {
    if levels == [] then -1
    else if levels[0] == s then 0
    else
      var k := IndexOf(levels[1..], s);
      if k == -1 then -1 else k + 1
  }

  /** `levels.findIndex(l => chosen.includes(l))`: the first level the user
      chose, or -1. */
  function FirstChosen(levels: seq<string>, chosen: seq<string>): (k: int)
    ensures -1 <= k < |levels|
    ensures k >= 0 ==> levels[k] in chosen && forall j :: 0 <= j < k ==> levels[j] !in chosen
    ensures k == -1 ==> forall j :: 0 <= j < |levels| ==> levels[j] !in chosen
  {
    if levels == [] then -1
    else if levels[0] in chosen then 0
    else
      var k := FirstChosen(levels[1..], chosen);
      if k == -1 then -1 else k + 1
  }

  /** Screening: measured from the lowest level the user chose; one step
      away earns 0.6, further away 0.3. A type level outside the scale counts
      as position -1, as `indexOf` reports it. */
  function MatchScreening(userScr: seq<string>, typeScr: string): (r: real)
    ensures 0.0 <= r <= 1.0
    ensures userScr == [] ==> r == 0.5
    ensures userScr != [] ==> (r == 1.0 <==> typeScr in userScr)
    ensures userScr != [] && typeScr !in userScr && FirstChosen(Levels, userScr) >= 0 ==>
              r == (if Abs(FirstChosen(Levels, userScr) - IndexOf(Levels, typeScr)) == 1 then 0.6 else 0.3)
    ensures userScr != [] && typeScr !in userScr && FirstChosen(Levels, userScr) == -1 ==> r == 0.5
  {
    if |userScr| == 0 then 0.5
    else if typeScr in userScr then 1.0
    else
      var userLevel := FirstChosen(Levels, userScr);
      var typeLevel := IndexOf(Levels, typeScr);
      if userLevel == -1 then 0.5
      else if Abs(userLevel - typeLevel) == 1 then 0.6
      else 0.3
  }

  // ---------------------------------------------------------------------
  // The score of one type
  // ---------------------------------------------------------------------

  /** The most a type with this profile can score: 55 plus 8 per lifestyle tag. */
  function MaxScore(t: TypeTags): real
  {
    (TagWeights.location + TagWeights.cost + TagWeights.building + TagWeights.security
     + TagWeights.screening + TagWeights.lifestyle * |t.lifestyle|) as real
  }

  /** A match degree times its category weight. */
  function Weighted(m: real, w: real): (r: real)
    requires 0.0 <= m <= 1.0 && 0.0 <= w
    ensures 0.0 <= r <= w
  {
    m * w
  }

  /** The weighted sum of the six matches; 0 for an id not in the catalog.
      The lifestyle weight grows with the number of the type's lifestyle tags. */
  function TypeScore(user: UserTags, catalog: Catalog, typeId: string): (s: real)
    ensures typeId !in catalog ==> s == 0.0
    ensures typeId in catalog ==> 0.0 <= s <= MaxScore(catalog[typeId])
  {
    if typeId !in catalog then 0.0
    else
      var t := catalog[typeId];
      Weighted(MatchLocation(user.location, t.location), TagWeights.location as real)
      + Weighted(MatchCost(user.cost, t.cost), TagWeights.cost as real)
      + Weighted(LifestyleMatch(user.lifestyle, t.lifestyle), (TagWeights.lifestyle * |t.lifestyle|) as real)
      + Weighted(BuildingMatch(user.building, t.building), TagWeights.building as real)
      + Weighted(MatchSecurity(user.security, t.security), TagWeights.security as real)
      + Weighted(MatchScreening(user.screening, t.screening), TagWeights.screening as real)
  }

  /** `calculateTypeScore`: accumulate the six weighted matches. */
  method CalculateTypeScore(userTags: UserTags, catalog: Catalog, typeId: string) returns (score: real)
    ensures score == TypeScore(userTags, catalog, typeId)
  {
    if typeId !in catalog {
      return 0.0;
    }
    var tags := catalog[typeId];
    score := 0.0;
    score := score + Weighted(MatchLocation(userTags.location, tags.location), TagWeights.location as real);
    score := score + Weighted(MatchCost(userTags.cost, tags.cost), TagWeights.cost as real);
    var lifestyle := MatchLifestyle(userTags.lifestyle, tags.lifestyle);
    score := score + Weighted(lifestyle, (TagWeights.lifestyle * |tags.lifestyle|) as real);
    var building := MatchBuilding(userTags.building, tags.building);
    score := score + Weighted(building, TagWeights.building as real);
    score := score + Weighted(MatchSecurity(userTags.security, tags.security), TagWeights.security as real);
    score := score + Weighted(MatchScreening(userTags.screening, tags.screening), TagWeights.screening as real);
  }

  // ---------------------------------------------------------------------
  // The best type
  // ---------------------------------------------------------------------

  /** Every id of the order has a score. */
  predicate Scored(order: seq<string>, scores: map<string, real>)
  {
    forall id :: id in order ==> id in scores
  }

  /** order[k] has a score no other type beats, and every type before it
      scores strictly less: the first maximum. */
  predicate FirstBestAt(order: seq<string>, scores: map<string, real>, k: int)
    requires Scored(order, scores)
  {
    0 <= k < |order|
    && (forall j :: 0 <= j < |order| ==> scores[order[j]] <= scores[order[k]])
    && (forall j :: 0 <= j < k ==> scores[order[j]] < scores[order[k]])
  }

  /** `calculateScore`: aggregate the answers, score every type of the
      catalog order, then keep the first type whose score no later one beats
      strictly. */
  method CalculateScore(answers: Answers, catalog: Catalog, typeOrder: seq<string>) returns (result: ScoreResult)
    requires |typeOrder| > 0
    ensures result.userTags == Aggregate(answers)
    ensures result.scores.Keys == set j | 0 <= j < |typeOrder| :: typeOrder[j]
    ensures forall id :: id in result.scores ==> result.scores[id] == TypeScore(result.userTags, catalog, id)
    ensures Scored(typeOrder, result.scores)
    ensures exists k :: FirstBestAt(typeOrder, result.scores, k) && typeOrder[k] == result.typeId
  {
    var userTags := AggregateTags(answers);
    var scores := ScoreTypes(userTags, catalog, typeOrder);
    var bestTypeId := PickBest(typeOrder, scores);
    result := ScoreResult(bestTypeId, scores, userTags);
  }

  /** The scoring `typeOrder.forEach` of `calculateScore`: one type score per
      id of the order. */
  method ScoreTypes(userTags: UserTags, catalog: Catalog, typeOrder: seq<string>) returns (scores: map<string, real>)
    ensures scores.Keys == set j | 0 <= j < |typeOrder| :: typeOrder[j]
    ensures forall id :: id in scores ==> scores[id] == TypeScore(userTags, catalog, id)
    ensures Scored(typeOrder, scores)
  {
    scores := map[];
    for i := 0 to |typeOrder|
      invariant scores.Keys == set j | 0 <= j < i :: typeOrder[j]
      invariant forall id :: id in scores ==> scores[id] == TypeScore(userTags, catalog, id)
    {
      var s := CalculateTypeScore(userTags, catalog, typeOrder[i]);
      scores := scores[typeOrder[i] := s];
    }
  }

  /** The best-so-far `typeOrder.forEach` of `calculateScore`: start from the
      first id and move on only to a strictly higher score. */
  method PickBest(typeOrder: seq<string>, scores: map<string, real>) returns (bestTypeId: string)
    requires |typeOrder| > 0 && Scored(typeOrder, scores)
    ensures exists k :: FirstBestAt(typeOrder, scores, k) && typeOrder[k] == bestTypeId
  {
    bestTypeId := typeOrder[0];
    var bestScore := scores[typeOrder[0]];
    ghost var bestIndex := 0;
    for i := 0 to |typeOrder|
      invariant 0 <= bestIndex < |typeOrder| && bestIndex <= i
      invariant bestTypeId == typeOrder[bestIndex] && bestScore == scores[bestTypeId]
      invariant forall j :: 0 <= j < i ==> scores[typeOrder[j]] <= bestScore
      invariant forall j :: 0 <= j < bestIndex ==> scores[typeOrder[j]] < bestScore
    {
      if scores[typeOrder[i]] > bestScore {
        bestScore := scores[typeOrder[i]];
        bestTypeId := typeOrder[i];
        bestIndex := i;
      }
    }
    assert FirstBestAt(typeOrder, scores, bestIndex);
  }
}
