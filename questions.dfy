/** The fixed bank of fifteen housing-preference questions and the fold that
    turns a user's answers into six lists of category tags (the evidence the
    scoring engine matches against each housing type). */
module Questions {
  import opened Wrappers

  /** Question id to chosen option id; partial maps are normal. */
  type Answers = map<int, string>

  /** The tags an option contributes; an absent field is `None`. */
  datatype OptionTags = OptionTags(
    location: Option<string>,
    cost: Option<string>,
    lifestyle: Option<seq<string>>,
    building: Option<seq<string>>,
    security: Option<string>,
    screening: Option<string>)

  datatype QuestionOption = QuestionOption(id: string, tags: OptionTags)

  datatype Question = Question(id: int, options: seq<QuestionOption>)

  /** The six tag categories. */
  datatype Category = Location | Cost | Lifestyle | Building | Security | Screening

  /** The aggregated evidence: one list per category, duplicates kept. */
  datatype UserTags = UserTags(
    location: seq<string>,
    cost: seq<string>,
    lifestyle: seq<string>,
    building: seq<string>,
    security: seq<string>,
    screening: seq<string>)
  {
    function Get(c: Category): seq<string>
    {
      match c
      case Location => location
      case Cost => cost
      case Lifestyle => lifestyle
      case Building => building
      case Security => security
      case Screening => screening
    }
  }

  const NoTags: OptionTags := OptionTags(None, None, None, None, None, None)
  const NoUserTags: UserTags := UserTags([], [], [], [], [], [])

  function Opt(id: string, tags: OptionTags): QuestionOption
  {
    QuestionOption(id, tags)
  }

  /** The question bank, in presentation order (texts omitted). */
  const Bank: seq<Question> := [
    Question(1, [
      Opt("a", NoTags.(location := Some("Urban"))),
      Opt("b", NoTags.(location := Some("Quiet"))),
      Opt("c", NoTags.(location := Some("Mid")))]),
    Question(2, [
      Opt("a", NoTags.(cost := Some("Rent Strict"))),
      Opt("b", NoTags.(cost := Some("Size Priority")))]),
    Question(3, [
      Opt("a", NoTags.(lifestyle := Some(["Low Initial"]))),
      Opt("b", NoTags)]),
    Question(4, [
      Opt("a", NoTags),
      Opt("b", NoTags.(lifestyle := Some(["Night Owls"])))]),
    Question(5, [
      Opt("a", NoTags.(lifestyle := Some(["Sunny"]))),
      Opt("b", NoTags)]),
    Question(6, [
      Opt("a", NoTags.(lifestyle := Some(["Ventilation Priority"]))),
      Opt("b", NoTags)]),
    Question(7, [
      Opt("a", NoTags.(lifestyle := Some(["Design Priority"]))),
      Opt("b", NoTags.(lifestyle := Some(["Equipment"]))),
      Opt("c", NoTags)]),
    Question(8, [
      Opt("a", NoTags.(building := Some(["Newer"]))),
      Opt("b", NoTags.(building := Some(["Retro OK"]), lifestyle := Some(["Structure Priority"]))),
      Opt("c", NoTags.(building := Some(["Retro OK", "Renovation"])))]),
    Question(9, [
      Opt("a", NoTags.(lifestyle := Some(["Pets Priority"]))),
      Opt("b", NoTags)]),
    Question(10, [
      Opt("a", NoTags.(lifestyle := Some(["Minimal"]))),
      Opt("b", NoTags.(cost := Some("Size Priority"))),
      Opt("c", NoTags)]),
    Question(11, [
      Opt("a", NoTags.(lifestyle := Some(["Stress Avoidance"]), location := Some("Quiet"))),
      Opt("b", NoTags)]),
    Question(12, [
      Opt("a", NoTags.(security := Some("High"))),
      Opt("b", NoTags.(security := Some("Normal")))]),
    Question(13, [
      Opt("a", NoTags.(lifestyle := Some(["Mobility Priority"]), location := Some("Urban"))),
      Opt("b", NoTags)]),
    Question(14, [
      Opt("a", NoTags.(lifestyle := Some(["Social"]))),
      Opt("b", NoTags)]),
    Question(15, [
      Opt("a", NoTags.(screening := Some("Low"))),
      Opt("b", NoTags.(screening := Some("Mid"))),
      Opt("c", NoTags.(screening := Some("High")))])
  ]

  // ---------------------------------------------------------------------
  // Shape of the bank
  // ---------------------------------------------------------------------

  /** The option ids of a question are "a", "b" and, for a third one, "c". */
  predicate WellLettered(q: Question)
  {
    (|q.options| == 2 || |q.options| == 3)
    && q.options[0].id == "a" && q.options[1].id == "b"
    && (|q.options| == 3 ==> q.options[2].id == "c")
  }

  /** The bank has fifteen questions, numbered 1 to 15 in order, each with two
      or three options lettered a, b (, c). */
  lemma BankShape()
    ensures |Bank| == 15
    ensures forall i :: 0 <= i < |Bank| ==> Bank[i].id == i + 1 && WellLettered(Bank[i])
  {
  }

  /** So every option id a valid answer can hold is a letter the answer
      codec maps to a digit of its own. */
  lemma OptionIdsAreCodecLetters(i: int, j: int)
    requires 0 <= i < |Bank| && 0 <= j < |Bank[i].options|
    ensures Bank[i].options[j].id in {"a", "b", "c"}
  {
    BankShape();
  }

  // ---------------------------------------------------------------------
  // aggregateTags
  // ---------------------------------------------------------------------

  /** `options.find(opt => opt.id === id)`: the first option with that id. */
  function FindOption(options: seq<QuestionOption>, id: string): (r: Option<QuestionOption>)
    ensures r.Some? ==> r.value in options && r.value.id == id
    ensures r.None? <==> forall j :: 0 <= j < |options| ==> options[j].id != id
  {
    if options == [] then None
    else if options[0].id == id then Some(options[0])
    else FindOption(options[1..], id)
  }

  /** `find` returns the first match: no option before the one it returns
      carries the id. */
  lemma {:induction false} FindOptionFirst(options: seq<QuestionOption>, id: string)
    ensures FindOption(options, id).Some? ==>
      exists k :: 0 <= k < |options| && options[k] == FindOption(options, id).value &&
        forall j :: 0 <= j < k ==> options[j].id != id
  {
    if options != [] && options[0].id != id {
      FindOptionFirst(options[1..], id);
      if FindOption(options, id).Some? {
        var k :| 0 <= k < |options[1..]| && options[1..][k] == FindOption(options, id).value &&
          forall j :: 0 <= j < k ==> options[1..][j].id != id;
        assert options[k + 1] == FindOption(options, id).value;
        assert forall j :: 0 <= j < k + 1 ==> options[j].id != id by {
          forall j | 0 <= j < k + 1 ensures options[j].id != id {
            if j > 0 { assert options[j] == options[1..][j - 1]; }
          }
        }
      }
    }
  }

  /** The option an answer selects on question q: none when q is unanswered,
      when the answer is the empty string (falsy), or when no option of q
      carries that id. */
  function Selected(q: Question, answers: Answers): (r: Option<QuestionOption>)
    ensures r.Some? ==> q.id in answers && r.value in q.options && r.value.id == answers[q.id]
  {
    if q.id !in answers || answers[q.id] == "" then None
    else FindOption(q.options, answers[q.id])
  }

  /** An answer selects an option exactly when it is present, non-empty and
      names one of the question's options. */
  lemma SelectedIff(q: Question, answers: Answers)
    ensures Selected(q, answers).Some? <==>
      q.id in answers && answers[q.id] != ""
      && exists j :: 0 <= j < |q.options| && q.options[j].id == answers[q.id]
  {
    if q.id in answers && answers[q.id] != "" {
      var r := FindOption(q.options, answers[q.id]);
      if r.Some? {
        var j :| 0 <= j < |q.options| && q.options[j] == r.value;
      }
    }
  }

  /** The tags an option pushes into one category: single-valued categories
      push their value when it is present and non-empty (truthy), list-valued
      ones spread the whole list. */
  function Contribution(t: OptionTags, c: Category): (r: seq<string>)
    ensures c != Lifestyle && c != Building ==> |r| <= 1 && forall j :: 0 <= j < |r| ==> r[j] != ""
    ensures c == Lifestyle && t.lifestyle.Some? ==> r == t.lifestyle.value
    ensures c == Building && t.building.Some? ==> r == t.building.value
  {
    match c
    case Location => if t.location.Some? && t.location.value != "" then [t.location.value] else []
    case Cost => if t.cost.Some? && t.cost.value != "" then [t.cost.value] else []
    case Lifestyle => if t.lifestyle.Some? then t.lifestyle.value else []
    case Building => if t.building.Some? then t.building.value else []
    case Security => if t.security.Some? && t.security.value != "" then [t.security.value] else []
    case Screening => if t.screening.Some? && t.screening.value != "" then [t.screening.value] else []
  }

  /** Every category extended by what the option contributes to it. */
  function Push(acc: UserTags, t: OptionTags): (r: UserTags)
    ensures forall c :: r.Get(c) == acc.Get(c) + Contribution(t, c)
  {
    UserTags(
      acc.location + Contribution(t, Location),
      acc.cost + Contribution(t, Cost),
      acc.lifestyle + Contribution(t, Lifestyle),
      acc.building + Contribution(t, Building),
      acc.security + Contribution(t, Security),
      acc.screening + Contribution(t, Screening))
  }

  /** The tags gathered from a run of questions, in order: each question
      whose answer selects an option pushes that option's tags. */
  function Gather(qs: seq<Question>, answers: Answers): (r: UserTags)
    ensures (forall i :: 0 <= i < |qs| ==> Selected(qs[i], answers).None?) ==> r == NoUserTags
  {
    if qs == [] then NoUserTags
    else
      GatherStep(Gather(qs[..|qs| - 1], answers), qs[|qs| - 1], answers)
  }

  /** What `aggregateTags(answers)` returns. */
  function Aggregate(answers: Answers): (r: UserTags)
    ensures answers == map[] ==> r == NoUserTags
  {
    Gather(Bank, answers)
  }

  /** The tags one question adds to what is gathered so far. */
  function GatherStep(acc: UserTags, q: Question, answers: Answers): (r: UserTags)
    ensures forall c :: acc.Get(c) <= r.Get(c)
    ensures Selected(q, answers).None? ==> r == acc
  {
    match Selected(q, answers)
    case None => acc
    case Some(o) => Push(acc, o.tags)
  }

  /** `aggregateTags`: walk the bank in order and let each question push the
      selected option's tags into the six lists. */
  method AggregateTags(answers: Answers) returns (result: UserTags)
    ensures result == Aggregate(answers)
  {
    result := ForEachQuestion(Bank, answers);
  }

  /** The `questions.forEach` loop of `aggregateTags`, over any run of
      questions, starting from six empty lists. */
  method ForEachQuestion(questions: seq<Question>, answers: Answers) returns (result: UserTags)
    ensures result == Gather(questions, answers)
  {
    result := UserTags([], [], [], [], [], []);
    for i := 0 to |questions|
      invariant result == Gather(questions[..i], answers)
    {
      assert questions[..i + 1][..i] == questions[..i];
      result := VisitQuestion(result, questions[i], answers);
    }
    assert questions[..|questions|] == questions;
  }

  /** The `forEach` callback of `aggregateTags` for one question: skip it when
      its answer is missing or empty or names no option, otherwise push the
      option's tags, spreading the list-valued ones. */
  method VisitQuestion(acc: UserTags, q: Question, answers: Answers) returns (result: UserTags)
    ensures result == GatherStep(acc, q, answers)
  {
    result := acc;
    if q.id !in answers || answers[q.id] == "" {
      return;
    }
    var selectedOption := FindOption(q.options, answers[q.id]);
    if selectedOption.None? {
      return;
    }
    var tags := selectedOption.value.tags;
    var location, cost, lifestyle, building, security, screening :=
      acc.location, acc.cost, acc.lifestyle, acc.building, acc.security, acc.screening;
    if tags.location.Some? && tags.location.value != "" {
      location := location + [tags.location.value];
    }
    assert location == acc.location + Contribution(tags, Location);
    if tags.cost.Some? && tags.cost.value != "" {
      cost := cost + [tags.cost.value];
    }
    assert cost == acc.cost + Contribution(tags, Cost);
    if tags.lifestyle.Some? {
      lifestyle := lifestyle + tags.lifestyle.value;
    }
    assert lifestyle == acc.lifestyle + Contribution(tags, Lifestyle);
    if tags.building.Some? {
      building := building + tags.building.value;
    }
    assert building == acc.building + Contribution(tags, Building);
    if tags.security.Some? && tags.security.value != "" {
      security := security + [tags.security.value];
    }
    assert security == acc.security + Contribution(tags, Security);
    if tags.screening.Some? && tags.screening.value != "" {
      screening := screening + [tags.screening.value];
    }
    assert screening == acc.screening + Contribution(tags, Screening);
    result := UserTags(location, cost, lifestyle, building, security, screening);
  }
}

module QuestionsProperties {
  import opened Wrappers
  import opened Questions

  // ---------------------------------------------------------------------
  // No answers, no evidence
  // ---------------------------------------------------------------------

  lemma {:induction false} GatherNothing(qs: seq<Question>)
    ensures Gather(qs, map[]) == NoUserTags
  {
    if qs != [] {
      GatherNothing(qs[..|qs| - 1]);
    }
  }

  /** `aggregateTags({})` returns six empty lists. */
  lemma AggregateEmpty()
    ensures forall c :: Aggregate(map[]).Get(c) == []
  {
    GatherNothing(Bank);
  }

  // ---------------------------------------------------------------------
  // Invalid answers are ignored
  // ---------------------------------------------------------------------

  /** An answer that selects no option of any question with its key. */
  predicate SelectsNothing(qs: seq<Question>, answers: Answers, k: int)
    requires k in answers
  {
    answers[k] == ""
    || forall i, j :: 0 <= i < |qs| && qs[i].id == k && 0 <= j < |qs[i].options|
         ==> qs[i].options[j].id != answers[k]
  }

  lemma {:induction false} GatherIgnores(qs: seq<Question>, answers: Answers, k: int)
    requires k in answers && SelectsNothing(qs, answers, k)
    ensures Gather(qs, answers) == Gather(qs, answers - {k})
  {
    if qs != [] {
      var init, q := qs[..|qs| - 1], qs[|qs| - 1];
      assert SelectsNothing(init, answers, k) by {
        if answers[k] != "" {
          forall i, j | 0 <= i < |init| && init[i].id == k && 0 <= j < |init[i].options|
            ensures init[i].options[j].id != answers[k]
          {
            assert init[i] == qs[i];
          }
        }
      }
      GatherIgnores(init, answers, k);
      if q.id == k {
        assert Selected(q, answers).None? by {
          if answers[k] != "" {
            forall j | 0 <= j < |q.options| ensures q.options[j].id != answers[k] {
              assert q == qs[|qs| - 1];
            }
          }
        }
      } else {
        assert Selected(q, answers) == Selected(q, answers - {k});
      }
    }
  }

  /** An answer whose value is empty, names no option of its question, or
      whose key is no question id contributes nothing: dropping it leaves the
      aggregate unchanged. */
  lemma AggregateIgnoresInvalid(answers: Answers, k: int)
    requires k in answers && SelectsNothing(Bank, answers, k)
    ensures Aggregate(answers) == Aggregate(answers - {k})
  {
    GatherIgnores(Bank, answers, k);
  }

  // ---------------------------------------------------------------------
  // Every tag comes from a selected option
  // ---------------------------------------------------------------------

  /** Tag t of category c is among those the option selected on qs[i] pushes. */
  predicate ComesFrom(qs: seq<Question>, answers: Answers, c: Category, t: string, i: int)
  {
    0 <= i < |qs| && Selected(qs[i], answers).Some?
    && t in Contribution(Selected(qs[i], answers).value.tags, c)
  }

  lemma {:induction false} GatherProvenance(qs: seq<Question>, answers: Answers, c: Category, t: string)
    requires t in Gather(qs, answers).Get(c)
    ensures exists i :: ComesFrom(qs, answers, c, t, i)
  {
    var init, q := qs[..|qs| - 1], qs[|qs| - 1];
    var prev := Gather(init, answers);
    match Selected(q, answers)
    case None =>
      GatherProvenance(init, answers, c, t);
      var i :| ComesFrom(init, answers, c, t, i);
      assert ComesFrom(qs, answers, c, t, i) by { assert qs[i] == init[i]; }
    case Some(o) =>
      assert Gather(qs, answers).Get(c) == prev.Get(c) + Contribution(o.tags, c);
      if t in prev.Get(c) {
        GatherProvenance(init, answers, c, t);
        var i :| ComesFrom(init, answers, c, t, i);
        assert ComesFrom(qs, answers, c, t, i) by { assert qs[i] == init[i]; }
      } else {
        assert ComesFrom(qs, answers, c, t, |qs| - 1);
      }
  }

  /** Every aggregated tag was contributed by the option an answer selected
      on some question of the bank. */
  lemma AggregateProvenance(answers: Answers, c: Category, t: string)
    requires t in Aggregate(answers).Get(c)
    ensures exists i :: ComesFrom(Bank, answers, c, t, i)
  {
    GatherProvenance(Bank, answers, c, t);
  }

  // ---------------------------------------------------------------------
  // More answers, more tags
  // ---------------------------------------------------------------------

  /** Every answer of `fewer` is also, unchanged, an answer of `more`. */
  predicate Extends(more: Answers, fewer: Answers)
  {
    fewer.Keys <= more.Keys && forall k :: k in fewer ==> more[k] == fewer[k]
  }

  lemma {:induction false} GatherGrows(qs: seq<Question>, fewer: Answers, more: Answers, c: Category)
    requires Extends(more, fewer)
    ensures multiset(Gather(qs, fewer).Get(c)) <= multiset(Gather(qs, more).Get(c))
  {
    if qs != [] {
      var init, q := qs[..|qs| - 1], qs[|qs| - 1];
      GatherGrows(init, fewer, more, c);
      var p1, p2 := Gather(init, fewer).Get(c), Gather(init, more).Get(c);
      var s1, s2 := Selected(q, fewer), Selected(q, more);
      if s1.Some? {
        assert s2 == s1;
        assert Gather(qs, more).Get(c) == p2 + Contribution(s1.value.tags, c);
        assert Gather(qs, fewer).Get(c) == p1 + Contribution(s1.value.tags, c);
      } else if s2.Some? {
        assert Gather(qs, fewer).Get(c) == p1;
        assert Gather(qs, more).Get(c) == p2 + Contribution(s2.value.tags, c);
      }
    }
  }

  /** Answering more questions never removes a tag: every category's
      multiset of tags only grows. */
  lemma AggregateGrows(fewer: Answers, more: Answers, c: Category)
    requires Extends(more, fewer)
    ensures multiset(Aggregate(fewer).Get(c)) <= multiset(Aggregate(more).Get(c))
  {
    GatherGrows(Bank, fewer, more, c);
  }

  // ---------------------------------------------------------------------
  // How many tags a category can hold
  // ---------------------------------------------------------------------

  function Sum(s: seq<nat>, n: nat): nat
    requires n <= |s|
  {
    if n == 0 then 0 else Sum(s, n - 1) + s[n - 1]
  }

  /** No option of qs[i] contributes more than caps[i] tags of category c. */
  predicate CappedBy(qs: seq<Question>, c: Category, caps: seq<nat>)
  {
    |caps| == |qs|
    && forall i, j :: 0 <= i < |qs| && 0 <= j < |qs[i].options|
         ==> |Contribution(qs[i].options[j].tags, c)| <= caps[i]
  }

  lemma {:induction false} GatherBounded(qs: seq<Question>, answers: Answers, c: Category, caps: seq<nat>)
    requires CappedBy(qs, c, caps)
    ensures |Gather(qs, answers).Get(c)| <= Sum(caps, |caps|)
  {
    if qs != [] {
      var init, q := qs[..|qs| - 1], qs[|qs| - 1];
      var initCaps := caps[..|caps| - 1];
      CappedInit(qs, c, caps);
      GatherBounded(init, answers, c, initCaps);
      SumAgree(initCaps, caps, |initCaps|);
      var sel := Selected(q, answers);
      if sel.Some? {
        var j :| 0 <= j < |q.options| && q.options[j] == sel.value;
        assert |Contribution(sel.value.tags, c)| <= caps[|qs| - 1];
      }
    }
  }

  /** Caps on a run of questions cap its questions but the last. */
  lemma CappedInit(qs: seq<Question>, c: Category, caps: seq<nat>)
    requires qs != [] && CappedBy(qs, c, caps)
    ensures CappedBy(qs[..|qs| - 1], c, caps[..|caps| - 1])
  {
    var init, initCaps := qs[..|qs| - 1], caps[..|caps| - 1];
    forall i, j | 0 <= i < |init| && 0 <= j < |init[i].options|
      ensures |Contribution(init[i].options[j].tags, c)| <= initCaps[i]
    {
      assert init[i] == qs[i];
    }
  }

  /** Unfolds the sum over a fifteen-entry table, one entry at a time. */
  lemma SumOfFifteen(s: seq<nat>)
    requires |s| == 15
    ensures Sum(s, 15) == s[0] + s[1] + s[2] + s[3] + s[4] + s[5] + s[6] + s[7]
                          + s[8] + s[9] + s[10] + s[11] + s[12] + s[13] + s[14]
  {
    assert Sum(s, 1) == s[0];
    assert Sum(s, 2) == Sum(s, 1) + s[1];
    assert Sum(s, 3) == Sum(s, 2) + s[2];
    assert Sum(s, 4) == Sum(s, 3) + s[3];
    assert Sum(s, 5) == Sum(s, 4) + s[4];
    assert Sum(s, 6) == Sum(s, 5) + s[5];
    assert Sum(s, 7) == Sum(s, 6) + s[6];
    assert Sum(s, 8) == Sum(s, 7) + s[7];
    assert Sum(s, 9) == Sum(s, 8) + s[8];
    assert Sum(s, 10) == Sum(s, 9) + s[9];
    assert Sum(s, 11) == Sum(s, 10) + s[10];
    assert Sum(s, 12) == Sum(s, 11) + s[11];
    assert Sum(s, 13) == Sum(s, 12) + s[12];
    assert Sum(s, 14) == Sum(s, 13) + s[13];
    assert Sum(s, 15) == Sum(s, 14) + s[14];
  }

  lemma {:induction false} SumAgree(a: seq<nat>, b: seq<nat>, n: nat)
    requires n <= |a| && n <= |b|
    requires forall i :: 0 <= i < n ==> a[i] == b[i]
    ensures Sum(a, n) == Sum(b, n)
  {
    if n > 0 {
      SumAgree(a, b, n - 1);
    }
  }

  /** Per question, the most tags of a category one option carries: location
      in Q1, Q11 and Q13; cost in Q2 and Q10; one lifestyle tag in each of
      eleven questions; two building tags in Q8; security in Q12; screening in
      Q15. */
  function CapTable(c: Category): seq<nat>
  {
    match c
    case Location =>  [1, 0, 0, 0, 0, 0, 0, 0, 0, 0, 1, 0, 1, 0, 0]
    case Cost =>      [0, 1, 0, 0, 0, 0, 0, 0, 0, 1, 0, 0, 0, 0, 0]
    case Lifestyle => [0, 0, 1, 1, 1, 1, 1, 1, 1, 1, 1, 0, 1, 1, 0]
    case Building =>  [0, 0, 0, 0, 0, 0, 0, 2, 0, 0, 0, 0, 0, 0, 0]
    case Security =>  [0, 0, 0, 0, 0, 0, 0, 0, 0, 0, 0, 1, 0, 0, 0]
    case Screening => [0, 0, 0, 0, 0, 0, 0, 0, 0, 0, 0, 0, 0, 0, 1]
  }

  /** The most tags each category can gather from the whole bank. */
  function Capacity(c: Category): nat
  {
    match c
    case Location => 3
    case Cost => 2
    case Lifestyle => 11
    case Building => 2
    case Security => 1
    case Screening => 1
  }

  /** No option of the bank carries more tags of category c than the table
      allows for its question, and the table sums to the capacity. */
  lemma BankCapped(c: Category)
    ensures CappedBy(Bank, c, CapTable(c))
    ensures Sum(CapTable(c), 15) == Capacity(c)
  {
    SumOfFifteen(CapTable(c));
    match c
    case Location => CappedLocation();
    case Cost => CappedCost();
    case Lifestyle => CappedLifestyle();
    case Building => CappedBuilding();
    case Security => CappedSecurity();
    case Screening => CappedScreening();
  }

  lemma CappedLocation()
    ensures CappedBy(Bank, Location, CapTable(Location))
  {
  }

  lemma CappedCost()
    ensures CappedBy(Bank, Cost, CapTable(Cost))
  {
  }

  lemma CappedLifestyle()
    ensures CappedBy(Bank, Lifestyle, CapTable(Lifestyle))
  {
  }

  lemma CappedBuilding()
    ensures CappedBy(Bank, Building, CapTable(Building))
  {
  }

  lemma CappedSecurity()
    ensures CappedBy(Bank, Security, CapTable(Security))
  {
  }

  lemma CappedScreening()
    ensures CappedBy(Bank, Screening, CapTable(Screening))
  {
  }

  /** Category lengths are bounded: location 3, cost 2, lifestyle 11,
      building 2, security 1, screening 1. */
  lemma AggregateBounded(answers: Answers, c: Category)
    ensures |Aggregate(answers).Get(c)| <= Capacity(c)
  {
    BankCapped(c);
    GatherBounded(Bank, answers, c, CapTable(c));
  }

  // ---------------------------------------------------------------------
  // A concrete aggregate
  // ---------------------------------------------------------------------

  /** The tags of a shorter run of questions are kept by a longer one. */
  lemma {:induction false} GatherPrefixGrows(qs: seq<Question>, answers: Answers, c: Category, n: nat)
    requires n <= |qs|
    ensures multiset(Gather(qs[..n], answers).Get(c)) <= multiset(Gather(qs, answers).Get(c))
    decreases |qs| - n
  {
    if n < |qs| {
      var init := qs[..|qs| - 1];
      assert init[..n] == qs[..n];
      GatherPrefixGrows(init, answers, c, n);
    } else {
      assert qs[..n] == qs;
    }
  }

  /** The question at index k, when its answer selects an option, appends
      that option's contribution to the tags of the questions before it. */
  lemma GatherAt(qs: seq<Question>, answers: Answers, c: Category, k: nat)
    requires k < |qs| && Selected(qs[k], answers).Some?
    ensures Gather(qs[..k + 1], answers).Get(c)
            == Gather(qs[..k], answers).Get(c) + Contribution(Selected(qs[k], answers).value.tags, c)
  {
    assert qs[..k + 1][..k] == qs[..k];
  }

  /** A tag contributed by question i is among the tags of any longer run. */
  lemma TagKept(qs: seq<Question>, answers: Answers, c: Category, t: string, i: int, n: nat)
    requires i < n <= |qs| && ComesFrom(qs, answers, c, t, i)
    ensures t in Gather(qs[..n], answers).Get(c)
  {
    var upToI := Gather(qs[..i + 1], answers).Get(c);
    GatherAt(qs, answers, c, i);
    assert t in upToI;
    PrefixKept(qs, answers, c, i + 1, n);
    MemberKept(upToI, Gather(qs[..n], answers).Get(c), t);
  }

  /** The tags of the first m questions are kept among those of the first n. */
  lemma PrefixKept(qs: seq<Question>, answers: Answers, c: Category, m: nat, n: nat)
    requires m <= n <= |qs|
    ensures multiset(Gather(qs[..m], answers).Get(c)) <= multiset(Gather(qs[..n], answers).Get(c))
  {
    assert qs[..n][..m] == qs[..m];
    GatherPrefixGrows(qs[..n], answers, c, m);
  }

  lemma MemberKept(a: seq<string>, b: seq<string>, t: string)
    requires t in a && multiset(a) <= multiset(b)
    ensures t in b
  {
    assert t in multiset(a);
  }

  /** Duplicates are kept: when the options selected on two different
      questions both contribute tag t, t occurs at least twice. */
  lemma KeepsDuplicates(qs: seq<Question>, answers: Answers, c: Category, t: string, i: int, j: int)
    requires i < j && ComesFrom(qs, answers, c, t, i) && ComesFrom(qs, answers, c, t, j)
    ensures multiset(Gather(qs, answers).Get(c))[t] >= 2
  {
    var before := Gather(qs[..j], answers).Get(c);
    var added := Contribution(Selected(qs[j], answers).value.tags, c);
    TagKept(qs, answers, c, t, i, j);
    StepKept(qs, answers, c, j);
    CountTwo(before, added, Gather(qs, answers).Get(c), t);
  }

  /** The tags up to a selected question j, its contribution included, are
      kept among the tags of the whole run. */
  lemma StepKept(qs: seq<Question>, answers: Answers, c: Category, j: nat)
    requires j < |qs| && Selected(qs[j], answers).Some?
    ensures multiset(Gather(qs[..j], answers).Get(c) + Contribution(Selected(qs[j], answers).value.tags, c))
            <= multiset(Gather(qs, answers).Get(c))
  {
    GatherAt(qs, answers, c, j);
    PrefixKept(qs, answers, c, j + 1, |qs|);
    assert qs[..|qs|] == qs;
  }

  lemma CountTwo(before: seq<string>, added: seq<string>, whole: seq<string>, t: string)
    requires t in before && t in added && multiset(before + added) <= multiset(whole)
    ensures multiset(whole)[t] >= 2
  {
    assert multiset(before + added)[t] == multiset(before)[t] + multiset(added)[t];
  }

  /** For example, choosing the quiet suburbs in Q1 and noise avoidance in
      Q11 yields the location tag "Quiet" twice. */
  lemma QuietTwice()
    ensures multiset(Aggregate(map[1 := "b", 11 := "a"]).location)["Quiet"] >= 2
  {
    var answers := map[1 := "b", 11 := "a"];
    var q1, q11 := Bank[0], Bank[10];
    assert FindOption(q1.options, "b") == Some(q1.options[1]) by {
      assert q1.options[1..][0] == q1.options[1];
    }
    assert FindOption(q11.options, "a") == Some(q11.options[0]);
    assert ComesFrom(Bank, answers, Location, "Quiet", 0);
    assert ComesFrom(Bank, answers, Location, "Quiet", 10);
    KeepsDuplicates(Bank, answers, Location, "Quiet", 0, 10);
  }
}
