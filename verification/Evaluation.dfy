/** The weighted-mean summary of one home, and the two routes by which the
    service computes it. */
module Evaluation {
  import opened Prelude
  import opened ChecklistTable
  import opened ChecklistDomain
  import Ops = ChecklistOps

  datatype Summary = Summary(
    score: Option<real>,
    total: int,
    completed: int,
    notApplicable: int,
    rated: int,
    weighted: bool)

  const NO_ANSWER := HousingAnswer(NO_ID, NO_ID, "", None, "")

  // ---- the definition, straight from sets of criteria and answers ----

  ghost function SumOver(s: set<Id>, g: map<Id, real>): real
    requires s <= g.Keys
  {
    if s == {} then 0.0 else
      var x :| x in s;
      g[x] + SumOver(s - {x}, g)
  }

  function WeightOf(w: Option<real>): real {
    if w.Some? then w.value else 1.0
  }

  // What one rating adds to the numerator.
  function Score(rating: int, weight: real): real {
    rating as real * weight
  }

  // Criteria are given by their weights, one home's answers by criterion.
  predicate Counted(a: map<Id, HousingAnswer>, c: Id) {
    c in a && a[c].state != NOT_APPLICABLE && a[c].rating.Some?
  }

  ghost function RatedIds(weights: map<Id, Option<real>>, a: map<Id, HousingAnswer>): set<Id> {
    set c | c in weights && Counted(a, c)
  }

  ghost function InState(weights: map<Id, Option<real>>, a: map<Id, HousingAnswer>, state: string): set<Id> {
    set c | c in weights && c in a && a[c].state == state
  }

  ghost predicate AnyWeight(weights: map<Id, Option<real>>) {
    exists c :: c in weights && weights[c].Some?
  }

  ghost function Shares(weights: map<Id, Option<real>>, a: map<Id, HousingAnswer>): map<Id, real> {
    map c | c in RatedIds(weights, a) :: WeightOf(weights[c])
  }

  ghost function Points(weights: map<Id, Option<real>>, a: map<Id, HousingAnswer>): map<Id, real> {
    map c | c in RatedIds(weights, a) :: Score(a[c].rating.value, WeightOf(weights[c]))
  }

  ghost function Direct(weights: map<Id, Option<real>>, a: map<Id, HousingAnswer>): Summary {
    var den := SumOver(RatedIds(weights, a), Shares(weights, a));
    Summary(
      if den > 0.0 then Some(SumOver(RatedIds(weights, a), Points(weights, a)) / den) else None,
      |weights|,
      |InState(weights, a, COMPLETE)|,
      |InState(weights, a, NOT_APPLICABLE)|,
      |RatedIds(weights, a)|,
      AnyWeight(weights))
  }

  // The summary of home h of family f, as the stored tables define it.
  ghost function StoredSummary(db: Ops.Db, f: Id, h: Id): Summary {
    Direct(ActiveWeights(db, f), AnswersOfHome(db, f, h))
  }

  ghost function ActiveWeights(db: Ops.Db, f: Id): map<Id, Option<real>> {
    map c | c in Active(db.criteria, f) :: db.criteria[c].weight
  }

  ghost function AnswersOfHome(db: Ops.Db, f: Id, h: Id): map<Id, HousingAnswer> {
    map c | c in Active(db.criteria, f) && (h, c) in db.answers :: db.answers[(h, c)]
  }

  // ---- the loops ----

  datatype Tally = Tally(sum: real, weights: real, completed: int, notApplicable: int, rated: int, weighted: bool)

  function Count(s: Tally, c: HousingCriterion, a: HousingAnswer): Tally {
    var weight := WeightOf(c.weight);
    var s1 := if c.weight.Some? then s.(weighted := true) else s;
    if a.state == NOT_APPLICABLE then
      s1.(notApplicable := s1.notApplicable + 1)
    else
      var s2 := if a.state == COMPLETE then s1.(completed := s1.completed + 1) else s1;
      if a.rating.Some? then
        s2.(rated := s2.rated + 1, sum := s2.sum + Score(a.rating.value, weight), weights := s2.weights + weight)
      else
        s2
  }

  function Answered(byID: map<Id, HousingAnswer>, c: Id): HousingAnswer {
    if c in byID then byID[c] else NO_ANSWER
  }

  function TallyOf(criteria: seq<HousingCriterion>, byID: map<Id, HousingAnswer>): Tally {
    if criteria == [] then Tally(0.0, 0.0, 0, 0, 0, false) else
      var n := |criteria| - 1;
      Count(TallyOf(criteria[..n], byID), criteria[n], Answered(byID, criteria[n].id))
  }

  function LastAnswers(answers: seq<HousingAnswer>): map<Id, HousingAnswer> {
    if answers == [] then map[] else
      var n := |answers| - 1;
      LastAnswers(answers[..n])[answers[n].criterion := answers[n]]
  }

  function Report(total: int, t: Tally): Summary {
    Summary(if t.weights > 0.0 then Some(t.sum / t.weights) else None,
            total, t.completed, t.notApplicable, t.rated, t.weighted)
  }

  method IndexAnswers(answers: seq<HousingAnswer>) returns (byID: map<Id, HousingAnswer>)
    ensures byID == LastAnswers(answers)
  {
    byID := map[];
    for i := 0 to |answers|
      invariant byID == LastAnswers(answers[..i])
    {
      assert answers[..i + 1][..i] == answers[..i];
      byID := byID[answers[i].criterion := answers[i]];
    }
    assert answers[..|answers|] == answers;
  }

  method SummarizeHousingEvaluation(criteria: seq<HousingCriterion>, answers: seq<HousingAnswer>) returns (s: Summary)
    ensures s == Report(|criteria|, TallyOf(criteria, LastAnswers(answers)))
    ensures DistinctIds(criteria) ==> s == Direct(WeightsById(criteria), LastAnswers(answers))
  {
    hide Score, Direct, DistinctIds, WeightsById;
    var byID := IndexAnswers(answers);
    s := Summary(None, |criteria|, 0, 0, 0, false);
    var sum, weights := 0.0, 0.0;
    for i := 0 to |criteria|
      invariant Tally(sum, weights, s.completed, s.notApplicable, s.rated, s.weighted) == TallyOf(criteria[..i], byID)
      invariant s.score.None? && s.total == |criteria|
    {
      ghost var before := Tally(sum, weights, s.completed, s.notApplicable, s.rated, s.weighted);
      var c := criteria[i];
      assert TallyOf(criteria[..i + 1], byID) == Count(before, c, Answered(byID, c.id)) by {
        assert criteria[..i + 1][..i] == criteria[..i];
      }
      var weight := 1.0;
      if c.weight.Some? {
        weight := c.weight.value;
        s := s.(weighted := true);
      }
      var a := Answered(byID, c.id);
      if a.state == NOT_APPLICABLE {
        s := s.(notApplicable := s.notApplicable + 1);
      } else {
        if a.state == COMPLETE {
          s := s.(completed := s.completed + 1);
        }
        if a.rating.Some? {
          s := s.(rated := s.rated + 1);
          sum := sum + Score(a.rating.value, weight);
          weights := weights + weight;
        }
      }
    }
    assert criteria[..|criteria|] == criteria;
    if weights > 0.0 {
      s := s.(score := Some(sum / weights));
    }
    if DistinctIds(criteria) {
      LoopIsDirect(criteria, byID);
    }
  }

  // ---- the loop computes the definition, in whatever order the rows come ----

  predicate DistinctIds(criteria: seq<HousingCriterion>) {
    forall i, j :: 0 <= i < j < |criteria| ==> criteria[i].id != criteria[j].id
  }

  function WeightsById(criteria: seq<HousingCriterion>): map<Id, Option<real>> {
    if criteria == [] then map[] else
      var n := |criteria| - 1;
      WeightsById(criteria[..n])[criteria[n].id := criteria[n].weight]
  }

  lemma {:induction false} WeightsByIdKeys(criteria: seq<HousingCriterion>)
    ensures forall c :: c in WeightsById(criteria) <==> exists i :: 0 <= i < |criteria| && criteria[i].id == c
    ensures DistinctIds(criteria) ==> forall i :: 0 <= i < |criteria| ==>
      criteria[i].id in WeightsById(criteria) && WeightsById(criteria)[criteria[i].id] == criteria[i].weight
  {
    if criteria != [] {
      var n := |criteria| - 1;
      var before := criteria[..n];
      WeightsByIdKeys(before);
      forall c
        ensures c in WeightsById(criteria) <==> exists i :: 0 <= i < |criteria| && criteria[i].id == c
      {
        if c in WeightsById(before) {
          var i :| 0 <= i < n && before[i].id == c;
          assert criteria[i].id == c;
        }
        if i :| 0 <= i < |criteria| && criteria[i].id == c {
          if i < n { assert before[i].id == c; }
        }
      }
      if DistinctIds(criteria) {
        forall i | 0 <= i < n
          ensures criteria[i].id in WeightsById(before) && WeightsById(before)[criteria[i].id] == criteria[i].weight
        {
          assert before[i].id == criteria[i].id;
        }
      }
    }
  }

  lemma {:induction false} SumOverRemove(s: set<Id>, g: map<Id, real>, x: Id)
    requires s <= g.Keys && x in s
    ensures SumOver(s, g) == g[x] + SumOver(s - {x}, g)
  {
    var y :| y in s && SumOver(s, g) == g[y] + SumOver(s - {y}, g);
    if y != x {
      SumOverRemove(s - {y}, g, x);
      SumOverRemove(s - {x}, g, y);
      assert s - {x} - {y} == s - {y} - {x};
    }
  }

  lemma {:induction false} SumOverSame(s: set<Id>, g: map<Id, real>, h: map<Id, real>)
    requires s <= g.Keys && s <= h.Keys && forall x :: x in s ==> g[x] == h[x]
    ensures SumOver(s, g) == SumOver(s, h)
  {
    if s != {} {
      var x :| x in s;
      SumOverRemove(s, g, x);
      SumOverRemove(s, h, x);
      SumOverSame(s - {x}, g, h);
    }
  }

  // One more criterion, not seen before, changes the definition by what Count adds.
  ghost function DirectTally(weights: map<Id, Option<real>>, a: map<Id, HousingAnswer>): Tally {
    Tally(
      SumOver(RatedIds(weights, a), Points(weights, a)),
      SumOver(RatedIds(weights, a), Shares(weights, a)),
      |InState(weights, a, COMPLETE)|,
      |InState(weights, a, NOT_APPLICABLE)|,
      |RatedIds(weights, a)|,
      AnyWeight(weights))
  }

  lemma SumExtends(s: set<Id>, g: map<Id, real>, s': set<Id>, g': map<Id, real>, c: Id, more: bool)
    requires s <= g.Keys && s' <= g'.Keys && c !in s
    requires s' == if more then s + {c} else s
    requires forall x :: x in s ==> g'[x] == g[x]
    ensures SumOver(s', g') == SumOver(s, g) + if more then g'[c] else 0.0
  {
    SumOverSame(s, g, g');
    if more {
      SumOverRemove(s', g', c);
      assert s' - {c} == s;
    }
  }

  lemma RatedExtends(weights: map<Id, Option<real>>, a: map<Id, HousingAnswer>, c: Id, weights': map<Id, Option<real>>)
    requires c !in weights && c in weights' && weights' == weights[c := weights'[c]]
    ensures RatedIds(weights', a) == if Counted(a, c) then RatedIds(weights, a) + {c} else RatedIds(weights, a)
    ensures c !in RatedIds(weights, a)
  {
  }

  lemma SumsExtend(weights: map<Id, Option<real>>, a: map<Id, HousingAnswer>, c: Id, weights': map<Id, Option<real>>)
    requires c !in weights && c in weights' && weights' == weights[c := weights'[c]]
    ensures SumOver(RatedIds(weights', a), Points(weights', a)) ==
            SumOver(RatedIds(weights, a), Points(weights, a)) +
            if Counted(a, c) then Score(a[c].rating.value, WeightOf(weights'[c])) else 0.0
    ensures SumOver(RatedIds(weights', a), Shares(weights', a)) ==
            SumOver(RatedIds(weights, a), Shares(weights, a)) +
            if Counted(a, c) then WeightOf(weights'[c]) else 0.0
  {
    hide SumOver, RatedIds, Score;
    var s, s' := RatedIds(weights, a), RatedIds(weights', a);
    RatedExtends(weights, a, c, weights');
    assert forall x :: x in s ==> x in weights && Counted(a, x) by { RatedMembers(weights, a); }
    SumExtends(s, Points(weights, a), s', Points(weights', a), c, Counted(a, c));
    SumExtends(s, Shares(weights, a), s', Shares(weights', a), c, Counted(a, c));
  }

  lemma RatedMembers(weights: map<Id, Option<real>>, a: map<Id, HousingAnswer>)
    ensures forall x :: x in RatedIds(weights, a) <==> x in weights && Counted(a, x)
  {
  }

  lemma CountsExtend(weights: map<Id, Option<real>>, a: map<Id, HousingAnswer>, c: Id, weights': map<Id, Option<real>>, state: string)
    requires c !in weights && c in weights' && weights' == weights[c := weights'[c]]
    ensures |InState(weights', a, state)| ==
            |InState(weights, a, state)| + if c in a && a[c].state == state then 1 else 0
  {
    if c in a && a[c].state == state {
      assert InState(weights', a, state) == InState(weights, a, state) + {c};
    } else {
      assert InState(weights', a, state) == InState(weights, a, state);
    }
  }

  lemma AnyWeightExtends(weights: map<Id, Option<real>>, c: Id, weights': map<Id, Option<real>>)
    requires c !in weights && c in weights' && weights' == weights[c := weights'[c]]
    ensures AnyWeight(weights') == (AnyWeight(weights) || weights'[c].Some?)
  {
    if x :| x in weights && weights[x].Some? {
      assert weights'[x].Some?;
    }
  }

  lemma TallyExtends(weights: map<Id, Option<real>>, a: map<Id, HousingAnswer>, c: HousingCriterion)
    requires c.id !in weights
    ensures DirectTally(weights[c.id := c.weight], a) == Count(DirectTally(weights, a), c, Answered(a, c.id))
  {
    hide Score, SumOver, Points, Shares, RatedIds, InState, AnyWeight;
    var weights' := weights[c.id := c.weight];
    RatedExtends(weights, a, c.id, weights');
    SumsExtend(weights, a, c.id, weights');
    CountsExtend(weights, a, c.id, weights', COMPLETE);
    CountsExtend(weights, a, c.id, weights', NOT_APPLICABLE);
    AnyWeightExtends(weights, c.id, weights');
  }

  lemma {:induction false} TallyIsDirect(criteria: seq<HousingCriterion>, a: map<Id, HousingAnswer>)
    requires DistinctIds(criteria)
    ensures TallyOf(criteria, a) == DirectTally(WeightsById(criteria), a)
    ensures |WeightsById(criteria)| == |criteria|
  {
    if criteria == [] {
      assert RatedIds(map[], a) == {};
    } else {
      var n := |criteria| - 1;
      TallyIsDirect(criteria[..n], a);
      WeightsByIdKeys(criteria[..n]);
      TallyExtends(WeightsById(criteria[..n]), a, criteria[n]);
    }
  }

  lemma LoopIsDirect(criteria: seq<HousingCriterion>, a: map<Id, HousingAnswer>)
    requires DistinctIds(criteria)
    ensures Report(|criteria|, TallyOf(criteria, a)) == Direct(WeightsById(criteria), a)
  {
    TallyIsDirect(criteria, a);
  }

  predicate OnePerCriterion(answers: seq<HousingAnswer>) {
    forall i, j :: 0 <= i < j < |answers| ==> answers[i].criterion != answers[j].criterion
  }

  lemma {:induction false} LastAnswersLookup(answers: seq<HousingAnswer>)
    requires OnePerCriterion(answers)
    ensures forall a :: a in answers ==> a.criterion in LastAnswers(answers) && LastAnswers(answers)[a.criterion] == a
    ensures forall c :: c in LastAnswers(answers) ==> LastAnswers(answers)[c] in answers && LastAnswers(answers)[c].criterion == c
  {
    if answers != [] {
      var n := |answers| - 1;
      var before := answers[..n];
      LastAnswersLookup(before);
      assert answers == before + [answers[n]];
      forall a | a in before
        ensures a.criterion != answers[n].criterion
      {
        var i :| 0 <= i < n && before[i] == a;
        assert answers[i] == a;
      }
    }
  }

  // ---- what the summary promises ----

  ghost predicate ValidInputs(weights: map<Id, Option<real>>, a: map<Id, HousingAnswer>) {
    && (forall c :: c in weights && weights[c].Some? ==> 0.0 < weights[c].value <= 1000.0)
    && (forall c :: c in a ==> ValidAnswer(a[c]))
  }

  lemma {:induction false} SumOverBetween(s: set<Id>, g: map<Id, real>, h: map<Id, real>)
    requires s <= g.Keys && s <= h.Keys
    requires forall x :: x in s ==> 0.0 < g[x] <= h[x] <= 5.0 * g[x]
    ensures SumOver(s, g) <= SumOver(s, h) <= 5.0 * SumOver(s, g)
    ensures SumOver(s, g) >= 0.0 && (s != {} ==> SumOver(s, g) > 0.0)
  {
    if s != {} {
      var x :| x in s;
      SumOverRemove(s, g, x);
      SumOverRemove(s, h, x);
      SumOverBetween(s - {x}, g, h);
    }
  }

  lemma ScoreBetween(rating: int, weight: real)
    requires 1 <= rating <= 5 && weight > 0.0
    ensures weight <= Score(rating, weight) <= 5.0 * weight
  {
    var s, most := Score(rating, weight), 5.0 * weight;
    TimesBetween(rating as real, weight, s, most);
  }

  lemma TimesBetween(r: real, w: real, s: real, most: real)
    requires 1.0 <= r <= 5.0 && w > 0.0 && s == r * w && most == 5.0 * w
    ensures w <= s <= most
  {
    ProductNonNegative(r - 1.0, w);
    ProductNonNegative(5.0 - r, w);
    assert (r - 1.0) * w == r * w - w;
    assert (5.0 - r) * w == 5.0 * w - r * w;
  }

  lemma ProductNonNegative(x: real, y: real)
    requires x >= 0.0 && y >= 0.0
    ensures x * y >= 0.0
  {
  }

  lemma ScoreGrows(rating: int, higher: int, weight: real)
    requires rating < higher && weight > 0.0
    ensures Score(rating, weight) < Score(higher, weight)
  {
    var d := higher as real - rating as real;
    assert d > 0.0 && d * weight > 0.0;
    assert d * weight == higher as real * weight - rating as real * weight;
  }

  lemma SharesAndPoints(weights: map<Id, Option<real>>, a: map<Id, HousingAnswer>)
    requires ValidInputs(weights, a)
    ensures var s := RatedIds(weights, a);
      && SumOver(s, Shares(weights, a)) <= SumOver(s, Points(weights, a)) <= 5.0 * SumOver(s, Shares(weights, a))
      && (SumOver(s, Shares(weights, a)) > 0.0 <==> s != {})
  {
    hide Score;
    var s := RatedIds(weights, a);
    forall x | x in s
      ensures 0.0 < Shares(weights, a)[x] <= Points(weights, a)[x] <= 5.0 * Shares(weights, a)[x]
    {
      ScoreBetween(a[x].rating.value, WeightOf(weights[x]));
    }
    SumOverBetween(s, Shares(weights, a), Points(weights, a));
  }

  /** A score exists exactly when something is rated, and lies between the
      lowest and the highest rating. */
  lemma ScoreInRange(weights: map<Id, Option<real>>, a: map<Id, HousingAnswer>)
    requires ValidInputs(weights, a)
    ensures Direct(weights, a).score.Some? <==> RatedIds(weights, a) != {}
    ensures Direct(weights, a).score.Some? ==> 1.0 <= Direct(weights, a).score.value <= 5.0
  {
    hide SumOver;
    SharesAndPoints(weights, a);
    var s := RatedIds(weights, a);
    var num, den := SumOver(s, Points(weights, a)), SumOver(s, Shares(weights, a));
    if den > 0.0 { QuotientBetween(num, den); }
  }

  lemma TimesGrows(x: real, y: real, d: real)
    requires x < y && d > 0.0
    ensures x * d < y * d
  {
    assert (y - x) * d > 0.0;
  }

  lemma QuotientBetween(num: real, den: real)
    requires den > 0.0 && den <= num <= 5.0 * den
    ensures 1.0 <= num / den <= 5.0
  {
    var q := num / den;
    assert q * den == num;
    if q < 1.0 { TimesGrows(q, 1.0, den); }
    if q > 5.0 { TimesGrows(5.0, q, den); }
  }

  function Sum(xs: seq<real>): real {
    if xs == [] then 0.0 else Sum(xs[..|xs| - 1]) + xs[|xs| - 1]
  }

  ghost function Elements(ids: seq<Id>): set<Id> {
    set c | c in ids
  }

  predicate NoRepeats(ids: seq<Id>) {
    forall i, j :: 0 <= i < j < |ids| ==> ids[i] != ids[j]
  }

  predicate Reads(ids: seq<Id>, g: map<Id, real>, xs: seq<real>) {
    |xs| == |ids| && forall i :: 0 <= i < |ids| ==> ids[i] in g && xs[i] == g[ids[i]]
  }

  lemma LastElement(ids: seq<Id>)
    requires ids != [] && NoRepeats(ids)
    ensures var n := |ids| - 1;
      && NoRepeats(ids[..n])
      && ids[n] !in Elements(ids[..n]) && ids[n] in Elements(ids)
      && Elements(ids[..n]) == Elements(ids) - {ids[n]}
      && Elements(ids) == Elements(ids[..n]) + {ids[n]}
  {
    var n := |ids| - 1;
    assert ids == ids[..n] + [ids[n]];
  }

  lemma ElementsRead(ids: seq<Id>, g: map<Id, real>, xs: seq<real>)
    requires Reads(ids, g, xs)
    ensures Elements(ids) <= g.Keys
    ensures ids != [] ==>
      Reads(ids[..|ids| - 1], g, xs[..|ids| - 1]) && ids[|ids| - 1] in g && xs[|ids| - 1] == g[ids[|ids| - 1]]
  {
  }

  lemma {:induction false} SumOfListed(ids: seq<Id>, g: map<Id, real>, xs: seq<real>)
    requires NoRepeats(ids) && Reads(ids, g, xs)
    ensures Elements(ids) <= g.Keys && SumOver(Elements(ids), g) == Sum(xs) && |Elements(ids)| == |ids|
  {
    ElementsRead(ids, g, xs);
    SameLength(ids, g, xs);
    hide Reads, NoRepeats;
    if ids == [] {
      assert Elements(ids) == {};
    } else {
      hide Elements, SumOver;
      LastElement(ids);
      SumOfListed(ids[..|ids| - 1], g, xs[..|ids| - 1]);
      SumOverRemove(Elements(ids), g, ids[|ids| - 1]);
    }
  }

  lemma SameLength(ids: seq<Id>, g: map<Id, real>, xs: seq<real>)
    requires Reads(ids, g, xs)
    ensures |xs| == |ids|
  {
  }

  /** The score is the weighted mean of the ratings given to criteria that apply,
      in whatever order they are listed: a criterion without a weight weighs one. */
  lemma WeightedMean(weights: map<Id, Option<real>>, a: map<Id, HousingAnswer>, ids: seq<Id>, shares: seq<real>, points: seq<real>)
    requires forall i, j :: 0 <= i < j < |ids| ==> ids[i] != ids[j]
    requires forall c :: c in ids <==> c in weights && c in a && a[c].state != "not_applicable" && a[c].rating.Some?
    requires |shares| == |ids| && |points| == |ids|
    requires forall i :: 0 <= i < |ids| ==>
      shares[i] == match weights[ids[i]] case Some(w) => w case None => 1.0
    requires forall i :: 0 <= i < |ids| ==> points[i] == a[ids[i]].rating.value as real * shares[i]
    ensures var s := Direct(weights, a);
      && s.rated == |ids|
      && s.score == if Sum(shares) > 0.0 then Some(Sum(points) / Sum(shares)) else None
  {
    ElementsAreRated(weights, a, ids);
    assert Reads(ids, Shares(weights, a), shares) && Reads(ids, Points(weights, a), points) by {
      hide SumOver, RatedIds;
      ReadsFigures(weights, a, ids, shares, points);
    }
    SumsAsListed(weights, a, ids, shares, points);
  }

  lemma SumsAsListed(weights: map<Id, Option<real>>, a: map<Id, HousingAnswer>, ids: seq<Id>, shares: seq<real>, points: seq<real>)
    requires NoRepeats(ids) && Elements(ids) == RatedIds(weights, a)
    requires Reads(ids, Shares(weights, a), shares) && Reads(ids, Points(weights, a), points)
    ensures Direct(weights, a).rated == |ids|
    ensures Direct(weights, a).score == if Sum(shares) > 0.0 then Some(Sum(points) / Sum(shares)) else None
  {
    hide SumOver, Sum, Reads, NoRepeats, Elements, RatedIds, Points, Shares, InState, AnyWeight;
    SumOfListed(ids, Shares(weights, a), shares);
    SumOfListed(ids, Points(weights, a), points);
  }

  lemma ElementsAreRated(weights: map<Id, Option<real>>, a: map<Id, HousingAnswer>, ids: seq<Id>)
    requires forall c :: c in ids <==> c in weights && c in a && a[c].state != "not_applicable" && a[c].rating.Some?
    ensures Elements(ids) == RatedIds(weights, a)
  {
  }

  lemma ReadsFigures(weights: map<Id, Option<real>>, a: map<Id, HousingAnswer>, ids: seq<Id>, shares: seq<real>, points: seq<real>)
    requires Elements(ids) == RatedIds(weights, a)
    requires forall c :: c in ids ==> c in weights && c in a && a[c].rating.Some?
    requires |shares| == |ids| && |points| == |ids|
    requires forall i :: 0 <= i < |ids| ==>
      shares[i] == match weights[ids[i]] case Some(w) => w case None => 1.0
    requires forall i :: 0 <= i < |ids| ==> points[i] == a[ids[i]].rating.value as real * shares[i]
    ensures Reads(ids, Shares(weights, a), shares) && Reads(ids, Points(weights, a), points)
  {
    hide RatedIds, Score;
    forall i | 0 <= i < |ids|
      ensures ids[i] in Shares(weights, a) && shares[i] == Shares(weights, a)[ids[i]]
      ensures ids[i] in Points(weights, a) && points[i] == Points(weights, a)[ids[i]]
    {
      assert ids[i] in Elements(ids);
      ScoreIs(a[ids[i]].rating.value, shares[i]);
    }
  }

  lemma ScoreIs(rating: int, weight: real)
    ensures Score(rating, weight) == rating as real * weight
  {
  }

  /** The loop that indexes answers lets a later one for the same criterion
      replace an earlier. */
  lemma {:induction false} LaterAnswerWins(answers: seq<HousingAnswer>, i: nat)
    requires i < |answers|
    requires forall j :: i < j < |answers| ==> answers[j].criterion != answers[i].criterion
    ensures answers[i].criterion in LastAnswers(answers) && LastAnswers(answers)[answers[i].criterion] == answers[i]
  {
    var n := |answers| - 1;
    if i < n { LaterAnswerWins(answers[..n], i); }
  }

  /** The counts: all criteria, those answered complete, those answered not
      applicable, and whether any carries a weight. */
  lemma CountsMean(weights: map<Id, Option<real>>, a: map<Id, HousingAnswer>)
    ensures var s := Direct(weights, a);
      && s.total == |weights|
      && s.completed == |set c | c in weights && c in a && a[c].state == "complete"|
      && s.notApplicable == |set c | c in weights && c in a && a[c].state == "not_applicable"|
      && (s.weighted <==> exists c :: c in weights && weights[c].Some?)
  {
    hide SumOver;
    assert InState(weights, a, "complete") == set c | c in weights && c in a && a[c].state == "complete";
    assert InState(weights, a, "not_applicable") == set c | c in weights && c in a && a[c].state == "not_applicable";
  }

  /** A completed criterion is rated, and no criterion counts both as rated and
      as not applicable. */
  lemma CountsFit(weights: map<Id, Option<real>>, a: map<Id, HousingAnswer>)
    requires ValidInputs(weights, a)
    ensures var s := Direct(weights, a);
      0 <= s.completed <= s.rated && 0 <= s.notApplicable && s.rated + s.notApplicable <= s.total
  {
    var done, rated, none := InState(weights, a, COMPLETE), RatedIds(weights, a), InState(weights, a, NOT_APPLICABLE);
    assert done <= rated;
    SubsetSmaller(done, rated);
    assert rated !! none && rated + none <= weights.Keys;
    assert |rated + none| == |rated| + |none|;
    SubsetSmaller(rated + none, weights.Keys);
    assert |weights.Keys| == |weights|;
  }

  /** Raising one rating, all else equal, raises the score. */
  lemma HigherRatingHigherScore(weights: map<Id, Option<real>>, a: map<Id, HousingAnswer>, c: Id, rating: int)
    requires ValidInputs(weights, a) && c in RatedIds(weights, a)
    requires a[c].rating.value < rating <= 5
    ensures var b := a[c := a[c].(rating := Some(rating))];
      && Direct(weights, a).score.Some? && Direct(weights, b).score.Some?
      && Direct(weights, a).score.value < Direct(weights, b).score.value
  {
    hide SumOver, Score;
    var b := a[c := a[c].(rating := Some(rating))];
    var s := RatedIds(weights, a);
    assert RatedIds(weights, b) == s;
    SharesAndPoints(weights, a);
    SumOverSame(s, Shares(weights, a), Shares(weights, b));
    SumOverRemove(s, Points(weights, a), c);
    SumOverRemove(s, Points(weights, b), c);
    SumOverSame(s - {c}, Points(weights, a), Points(weights, b));
    var w := WeightOf(weights[c]);
    ScoreGrows(a[c].rating.value, rating, w);
    QuotientGrows(SumOver(s, Points(weights, a)), SumOver(s, Points(weights, b)), SumOver(s, Shares(weights, a)));
  }

  lemma QuotientGrows(x: real, y: real, d: real)
    requires x < y && d > 0.0
    ensures x / d < y / d
  {
    assert (y - x) / d > 0.0;
    assert y / d == x / d + (y - x) / d;
  }

  /** Neither the order of the criteria nor that of the answers matters. */
  lemma OrderDoesNotMatter(
      criteria: seq<HousingCriterion>, criteria': seq<HousingCriterion>,
      answers: seq<HousingAnswer>, answers': seq<HousingAnswer>)
    requires DistinctIds(criteria) && DistinctIds(criteria') && OnePerCriterion(answers) && OnePerCriterion(answers')
    requires forall c :: c in criteria <==> c in criteria'
    requires forall a :: a in answers <==> a in answers'
    ensures Report(|criteria|, TallyOf(criteria, LastAnswers(answers))) ==
            Report(|criteria'|, TallyOf(criteria', LastAnswers(answers')))
  {
    hide TallyOf, Report, Direct, LastAnswers, WeightsById, DistinctIds, OnePerCriterion;
    LoopIsDirect(criteria, LastAnswers(answers));
    LoopIsDirect(criteria', LastAnswers(answers'));
    SameWeights(criteria, criteria');
    SameAnswers(answers, answers');
  }

  lemma SameAnswers(answers: seq<HousingAnswer>, answers': seq<HousingAnswer>)
    requires OnePerCriterion(answers) && OnePerCriterion(answers')
    requires forall a :: a in answers <==> a in answers'
    ensures LastAnswers(answers) == LastAnswers(answers')
  {
    hide LastAnswers, OnePerCriterion;
    LastAnswersLookup(answers);
    LastAnswersLookup(answers');
  }

  lemma SameWeights(criteria: seq<HousingCriterion>, criteria': seq<HousingCriterion>)
    requires DistinctIds(criteria) && DistinctIds(criteria')
    requires forall c :: c in criteria <==> c in criteria'
    ensures WeightsById(criteria) == WeightsById(criteria')
  {
    WeightsByIdKeys(criteria);
    WeightsByIdKeys(criteria');
    forall x | x in WeightsById(criteria)
      ensures x in WeightsById(criteria') && WeightsById(criteria')[x] == WeightsById(criteria)[x]
    {
      var i :| 0 <= i < |criteria| && criteria[i].id == x;
      assert criteria[i] in criteria';
      var j :| 0 <= j < |criteria'| && criteria'[j] == criteria[i];
    }
    forall x | x in WeightsById(criteria')
      ensures x in WeightsById(criteria)
    {
      var j :| 0 <= j < |criteria'| && criteria'[j].id == x;
      assert criteria'[j] in criteria;
      var i :| 0 <= i < |criteria| && criteria[i] == criteria'[j];
    }
  }

  // ---- the two routes to a home's summary ----

  // The rows of `ListHousingCriteria`: the family's active criteria, in any order.
  ghost predicate IsCriteriaList(db: Ops.Db, f: Id, criteria: seq<HousingCriterion>) {
    && DistinctIds(criteria)
    && (forall i :: 0 <= i < |criteria| ==>
          criteria[i].id in Active(db.criteria, f) && criteria[i].weight == db.criteria[criteria[i].id].weight)
    && (forall c :: c in Active(db.criteria, f) ==> exists i :: 0 <= i < |criteria| && criteria[i].id == c)
  }

  // The rows of `ListHousingAnswers`: every answer to an active criterion of
  // the family, once, in no particular order.
  ghost predicate IsAnswerList(db: Ops.Db, f: Id, answers: seq<HousingAnswer>) {
    && DistinctKeys(answers)
    && (forall a :: a in answers ==>
          a.criterion in Active(db.criteria, f) && (a.home, a.criterion) in db.answers && db.answers[(a.home, a.criterion)] == a)
    && (forall k :: k in db.answers && k.1 in Active(db.criteria, f) ==> db.answers[k] in answers)
  }

  function OfHome(answers: seq<HousingAnswer>, h: Id): seq<HousingAnswer> {
    if answers == [] then [] else
      var n := |answers| - 1;
      OfHome(answers[..n], h) + if answers[n].home == h then [answers[n]] else []
  }

  lemma {:induction false} OfHomeMembers(answers: seq<HousingAnswer>, h: Id)
    ensures forall a :: a in OfHome(answers, h) <==> a in answers && a.home == h
  {
    if answers != [] {
      var n := |answers| - 1;
      OfHomeMembers(answers[..n], h);
      assert answers == answers[..n] + [answers[n]];
    }
  }

  ghost predicate DistinctKeys(answers: seq<HousingAnswer>) {
    forall i, j :: 0 <= i < j < |answers| ==>
      (answers[i].home, answers[i].criterion) != (answers[j].home, answers[j].criterion)
  }

  lemma {:induction false} OfHomeOnePerCriterion(answers: seq<HousingAnswer>, h: Id)
    requires DistinctKeys(answers)
    ensures OnePerCriterion(OfHome(answers, h))
  {
    if answers != [] {
      var n := |answers| - 1;
      var before := OfHome(answers[..n], h);
      OfHomeOnePerCriterion(answers[..n], h);
      OfHomeMembers(answers[..n], h);
      if answers[n].home == h {
        forall i | 0 <= i < |before|
          ensures before[i].criterion != answers[n].criterion
        {
          assert before[i] in before;
          var j :| 0 <= j < n && answers[..n][j] == before[i];
          assert answers[j] == before[i];
        }
      }
    }
  }

  /** Indexing one home's rows gives that home's answers in the store. */
  lemma HomeAnswers(env: Ops.Env, db: Ops.Db, f: Id, answers: seq<HousingAnswer>, h: Id)
    requires Ops.WellFormed(env, db) && IsAnswerList(db, f, answers)
    ensures LastAnswers(OfHome(answers, h)) == AnswersOfHome(db, f, h)
  {
    hide LastAnswers, OfHome, Active;
    var rows := OfHome(answers, h);
    OfHomeMembers(answers, h);
    OfHomeOnePerCriterion(answers, h);
    LastAnswersLookup(rows);
    var m := AnswersOfHome(db, f, h);
    forall c | c in m
      ensures c in LastAnswers(rows) && LastAnswers(rows)[c] == m[c]
    {
      assert Ops.AnswerWellFormed(env, db, (h, c));
      assert (h, c).1 in Active(db.criteria, f);
      assert m[c] in answers && m[c] in rows;
    }
    forall c | c in LastAnswers(rows)
      ensures c in m
    {
      assert LastAnswers(rows)[c] in answers;
    }
  }

  lemma ListedWeights(db: Ops.Db, f: Id, criteria: seq<HousingCriterion>)
    requires IsCriteriaList(db, f, criteria)
    ensures WeightsById(criteria) == ActiveWeights(db, f)
  {
    hide WeightsById, DistinctIds;
    WeightsByIdKeys(criteria);
    var m := ActiveWeights(db, f);
    forall c | c in m
      ensures c in WeightsById(criteria) && WeightsById(criteria)[c] == m[c]
    {
      var i :| 0 <= i < |criteria| && criteria[i].id == c;
    }
  }

  /** Both routes rest on this: summarising the rows of one home gives the
      summary the stored tables define. */
  lemma RowsGiveStoredSummary(env: Ops.Env, db: Ops.Db, f: Id, h: Id, criteria: seq<HousingCriterion>, answers: seq<HousingAnswer>)
    requires Ops.WellFormed(env, db) && IsCriteriaList(db, f, criteria) && IsAnswerList(db, f, answers)
    ensures Direct(WeightsById(criteria), LastAnswers(OfHome(answers, h))) == StoredSummary(db, f, h)
  {
    hide Direct, WeightsById, LastAnswers, OfHome;
    HomeAnswers(env, db, f, answers, h);
    ListedWeights(db, f, criteria);
  }

  method GroupByHome(answers: seq<HousingAnswer>) returns (byHousing: map<Id, seq<HousingAnswer>>)
    ensures forall h :: OfHome(answers, h) == if h in byHousing then byHousing[h] else []
  {
    byHousing := map[];
    for i := 0 to |answers|
      invariant forall h :: OfHome(answers[..i], h) == if h in byHousing then byHousing[h] else []
    {
      var a := answers[i];
      assert answers[..i + 1][..i] == answers[..i];
      byHousing := byHousing[a.home := (if a.home in byHousing then byHousing[a.home] else []) + [a]];
    }
    assert answers[..|answers|] == answers;
  }

  /** The list route: answers grouped by home in a map, then summarised per home. */
  method AttachHousingEvaluations(
      criteria: seq<HousingCriterion>, answers: seq<HousingAnswer>, homes: seq<Id>,
      ghost env: Ops.Env, ghost db: Ops.Db, ghost f: Id) returns (evaluations: seq<Summary>)
    requires Ops.WellFormed(env, db) && IsCriteriaList(db, f, criteria) && IsAnswerList(db, f, answers)
    ensures |evaluations| == |homes|
    ensures forall i :: 0 <= i < |homes| ==> evaluations[i] == StoredSummary(db, f, homes[i])
  {
    hide Ops.WellFormed, Direct, StoredSummary, WeightsById, LastAnswers, TallyOf, Report, OfHome;
    var byHousing := GroupByHome(answers);
    evaluations := [];
    for i := 0 to |homes|
      invariant |evaluations| == i
      invariant forall k :: 0 <= k < i ==> evaluations[k] == StoredSummary(db, f, homes[k])
    {
      var mine := if homes[i] in byHousing then byHousing[homes[i]] else [];
      assert mine == OfHome(answers, homes[i]);
      var summary := SummarizeHousingEvaluation(criteria, mine);
      RowsGiveStoredSummary(env, db, f, homes[i], criteria, answers);
      evaluations := evaluations + [summary];
    }
  }

  /** The single-home route: rows kept when they are of this home and an active
      criterion. */
  method GetHousingEvaluation(
      criteria: seq<HousingCriterion>, answers: seq<HousingAnswer>, id: Id,
      ghost env: Ops.Env, ghost db: Ops.Db, ghost f: Id) returns (summary: Summary, selected: seq<HousingAnswer>)
    requires Ops.WellFormed(env, db) && IsCriteriaList(db, f, criteria) && IsAnswerList(db, f, answers)
    ensures summary == StoredSummary(db, f, id)
    ensures forall a :: a in selected <==> a in answers && a.home == id
  {
    hide Ops.WellFormed, Direct, StoredSummary, WeightsById, LastAnswers, TallyOf, Report;
    var active: map<Id, bool> := map[];
    for i := 0 to |criteria|
      invariant forall c :: c in active <==> exists k :: 0 <= k < i && criteria[k].id == c
    {
      active := active[criteria[i].id := true];
    }
    selected := [];
    for i := 0 to |answers|
      invariant selected == OfHome(answers[..i], id)
    {
      assert answers[i] in answers;
      assert answers[..i + 1][..i] == answers[..i];
      if answers[i].home == id && answers[i].criterion in active {
        selected := selected + [answers[i]];
      }
    }
    assert answers[..|answers|] == answers;
    summary := SummarizeHousingEvaluation(criteria, selected);
    RowsGiveStoredSummary(env, db, f, id, criteria, answers);
    OfHomeMembers(answers, id);
  }
}
