/** The administrator's two forms: `post '/admin/update/winners'`, which
    re-judges categories by name, and `post '/admin/lock/votes'`, which
    locks or opens voting. */
module Admin {
  import opened Model
  import opened Submission

  /** One category after the winner form: a submitted name makes the first
      nominee of this category with that name the winner, or clears the
      winner when none has it; a category left out of the form keeps its
      winner. */
  function Rejudged(cat: Category, params: map<string, string>): Category
  {
    if cat.name in params then cat.(winner := NomineeNamed(cat.nominees, Param(params, cat.name)))
    else cat
  }

  /** The categories after the winner form, in table order. */
  function WinnersUpdated(cats: seq<Category>, params: map<string, string>): (r: seq<Category>)
    ensures |r| == |cats|
    ensures forall i :: 0 <= i < |cats| ==>
      r[i].id == cats[i].id && r[i].name == cats[i].name && r[i].nominees == cats[i].nominees
    ensures forall i :: 0 <= i < |cats| && cats[i].name !in params ==> r[i].winner == cats[i].winner
    ensures forall i :: 0 <= i < |cats| && cats[i].name in params && r[i].winner.Some? ==>
      r[i].winner.value in cats[i].nominees && r[i].winner.value.name == params[cats[i].name]
    ensures forall i :: 0 <= i < |cats| && cats[i].name in params && r[i].winner.Some? ==>
      exists k :: 0 <= k < |cats[i].nominees| && cats[i].nominees[k] == r[i].winner.value &&
        forall j :: 0 <= j < k ==> cats[i].nominees[j].name != params[cats[i].name]
    ensures forall i :: 0 <= i < |cats| && cats[i].name in params ==>
      (r[i].winner.None? <==> forall j :: 0 <= j < |cats[i].nominees| ==> cats[i].nominees[j].name != params[cats[i].name])
  {
    seq(|cats|, i requires 0 <= i < |cats| => Rejudged(cats[i], params))
  }

  /** After the winner form every winner is unchanged or is a nominee of its
      own category, and the category ids stay distinct. */
  lemma WinnersStayEligible(cats: seq<Category>, params: map<string, string>)
    requires UniqueCategoryIds(cats)
    requires forall i :: 0 <= i < |cats| && cats[i].winner.Some? ==> cats[i].winner.value in cats[i].nominees
    ensures UniqueCategoryIds(WinnersUpdated(cats, params))
    ensures forall i :: 0 <= i < |cats| && WinnersUpdated(cats, params)[i].winner.Some? ==>
      WinnersUpdated(cats, params)[i].winner.value in cats[i].nominees
  {
  }

  /** A pick and a winner submitted under the same name in a category are
      the same nominee: when the winner form repeats the names of a
      submission for every category, every pick of that submission is
      correct afterwards, including a pick whose name matched nothing. */
  lemma {:induction false} SameNamesMakePicksCorrect(uid: nat, cats: seq<Category>, params: map<string, string>)
    requires forall i :: 0 <= i < |cats| ==> cats[i].name in params
    ensures |PicksFor(uid, cats, params)| == |cats|
    ensures forall i :: 0 <= i < |cats| ==>
      PicksFor(uid, cats, params)[i].IsCorrect(WinnersUpdated(cats, params)[i])
  {
    PicksForShape(uid, cats, params);
    forall i | 0 <= i < |cats|
      ensures PicksFor(uid, cats, params)[i].IsCorrect(WinnersUpdated(cats, params)[i])
    {
      assert WinnersUpdated(cats, params)[i] == Rejudged(cats[i], params);
    }
  }

  /** The lock form locks voting exactly when its `lock_votes` entry reads
      "lock_votes"; anything else opens it. */
  predicate LockRequested(params: map<string, string>)
  {
    Param(params, "lock_votes") == Some("lock_votes")
  }
}
