/** What `post '/:twitter/picks'` decides and writes: the three guards, the
    picks and favourites built from the submitted form, and the replacement
    of the user's earlier rows. */
module Submission {
  import opened Model

  /** The route's result: the picks were stored, or the redirect taken. */
  datatype Outcome = Submitted | NotOwner | VotesClosed | Incomplete

  /** Extra request parameters that the completeness check allows for. */
  const ExtraParams := 4

  /** The guards in source order; the first that fails decides. `target` is
      the user named in the path, `auth` the session's user. */
  function Guard(target: Option<nat>, auth: Option<nat>, votesClosed: bool,
                 categoryCount: nat, paramCount: nat): Outcome
  {
    if target.None? || target != auth then NotOwner
    else if votesClosed then VotesClosed
    else if categoryCount > paramCount - ExtraParams then Incomplete
    else Submitted
  }

  /** A submission is stored exactly when all three guards pass, and a
      failing guard wins over every later one. */
  lemma GuardOrder(target: Option<nat>, auth: Option<nat>, votesClosed: bool,
                   categoryCount: nat, paramCount: nat)
    ensures Guard(target, auth, votesClosed, categoryCount, paramCount) == Submitted
        <==> target.Some? && target == auth && !votesClosed && paramCount >= categoryCount + ExtraParams
    ensures target.None? || target != auth ==> Guard(target, auth, votesClosed, categoryCount, paramCount) == NotOwner
    ensures target.Some? && target == auth && votesClosed ==> Guard(target, auth, votesClosed, categoryCount, paramCount) == VotesClosed
  {
  }

  /** The form key of a category's favourite. */
  function FavouriteKey(cat: Category): string
  {
    cat.name + "_fav"
  }

  /** The pick for one category: its nominee is looked up by the submitted
      name among the category's own nominees. */
  function PickFor(uid: nat, cat: Category, params: map<string, string>): Pick
  {
    Entry(uid, cat.id, NomineeNamed(cat.nominees, Param(params, cat.name)))
  }

  /** The favourite for one category, if any: its nominee is looked up by
      name among all nominees, not only the category's. */
  function FavouriteFor(uid: nat, cat: Category, nominees: seq<Nominee>, params: map<string, string>): seq<Favourite>
  {
    match NomineeNamed(nominees, Param(params, FavouriteKey(cat)))
    case None => []
    case Some(n) => [Entry(uid, cat.id, Some(n))]
  }

  /** The picks the loop over the categories appends, in category order. */
  function PicksFor(uid: nat, cats: seq<Category>, params: map<string, string>): seq<Pick>
  {
    if cats == [] then []
    else PicksFor(uid, cats[..|cats| - 1], params) + [PickFor(uid, cats[|cats| - 1], params)]
  }

  /** The favourites the loop over the categories appends, in category order. */
  function FavouritesFor(uid: nat, cats: seq<Category>, nominees: seq<Nominee>, params: map<string, string>): seq<Favourite>
  {
    if cats == [] then []
    else FavouritesFor(uid, cats[..|cats| - 1], nominees, params) + FavouriteFor(uid, cats[|cats| - 1], nominees, params)
  }

  /** Appending to a table that is `a + b` appends to its `b` part. */
  lemma AppendAssoc(a: seq<Entry>, b: seq<Entry>, c: seq<Entry>)
    ensures (a + b) + c == a + (b + c)
  {
  }

  /** One more category in the loop appends that category's pick. */
  lemma PicksForExtend(uid: nat, cats: seq<Category>, i: nat, params: map<string, string>)
    requires i < |cats|
    ensures PicksFor(uid, cats[..i + 1], params) == PicksFor(uid, cats[..i], params) + [PickFor(uid, cats[i], params)]
  {
    assert cats[..i + 1][..i] == cats[..i];
  }

  /** One more category in the loop appends that category's favourite, if any. */
  lemma FavouritesForExtend(uid: nat, cats: seq<Category>, nominees: seq<Nominee>, i: nat, params: map<string, string>)
    requires i < |cats|
    ensures FavouritesFor(uid, cats[..i + 1], nominees, params)
         == FavouritesFor(uid, cats[..i], nominees, params) + FavouriteFor(uid, cats[i], nominees, params)
  {
    assert cats[..i + 1][..i] == cats[..i];
  }

  /** The rows of user `uid` (`user.picks`, `user.favourites`). */
  function EntriesOf(es: seq<Entry>, uid: nat): seq<Entry>
  {
    if es == [] then []
    else (if es[0].userId == uid then [es[0]] else []) + EntriesOf(es[1..], uid)
  }

  /** The table after `user.picks.destroy`: every row of other users, in order. */
  function Without(es: seq<Entry>, uid: nat): seq<Entry>
  {
    if es == [] then []
    else (if es[0].userId != uid then [es[0]] else []) + Without(es[1..], uid)
  }

  /** Exactly one pick per category, in category order, each naming that
      category and the nominee that the lookup in that category found. */
  lemma {:induction false} PicksForShape(uid: nat, cats: seq<Category>, params: map<string, string>)
    ensures |PicksFor(uid, cats, params)| == |cats|
    ensures forall i :: 0 <= i < |cats| ==> PicksFor(uid, cats, params)[i] == PickFor(uid, cats[i], params)
  {
    if cats != [] {
      var init := cats[..|cats| - 1];
      PicksForShape(uid, init, params);
      assert forall i :: 0 <= i < |init| ==> init[i] == cats[i];
    }
  }

  /** A pick's nominee, when it has one, is the first of its category's
      nominees carrying the submitted name; it has none exactly when the name is missing from
      the form or matches no nominee of the category. */
  lemma PickNomineeInCategory(uid: nat, cat: Category, params: map<string, string>)
    ensures PickFor(uid, cat, params).categoryId == cat.id && PickFor(uid, cat, params).userId == uid
    ensures PickFor(uid, cat, params).nominee.Some? ==>
      cat.name in params && PickFor(uid, cat, params).nominee.value in cat.nominees &&
      PickFor(uid, cat, params).nominee.value.name == params[cat.name]
    ensures PickFor(uid, cat, params).nominee.Some? ==>
      exists k :: 0 <= k < |cat.nominees| && cat.nominees[k] == PickFor(uid, cat, params).nominee.value &&
        forall j :: 0 <= j < k ==> cat.nominees[j].name != params[cat.name]
    ensures PickFor(uid, cat, params).nominee.None? <==>
      cat.name !in params || forall j :: 0 <= j < |cat.nominees| ==> cat.nominees[j].name != params[cat.name]
  {
  }

  /** Every favourite belongs to the user, has a nominee from the global
      list named by the form, and belongs to one of the categories. */
  lemma {:induction false} FavouritesForShape(uid: nat, cats: seq<Category>, nominees: seq<Nominee>, params: map<string, string>)
    ensures |FavouritesFor(uid, cats, nominees, params)| <= |cats|
    ensures forall k :: 0 <= k < |FavouritesFor(uid, cats, nominees, params)| ==>
      var f := FavouritesFor(uid, cats, nominees, params)[k];
      f.userId == uid && f.nominee.Some? && f.nominee.value in nominees &&
      exists i :: 0 <= i < |cats| && cats[i].id == f.categoryId &&
        FavouriteKey(cats[i]) in params && f.nominee.value.name == params[FavouriteKey(cats[i])]
  {
    if cats != [] {
      var init := cats[..|cats| - 1];
      var last := cats[|cats| - 1];
      FavouritesForShape(uid, init, nominees, params);
      var fs := FavouritesFor(uid, cats, nominees, params);
      var before := FavouritesFor(uid, init, nominees, params);
      assert fs == before + FavouriteFor(uid, last, nominees, params);
      forall k | 0 <= k < |fs|
        ensures fs[k].userId == uid && fs[k].nominee.Some? && fs[k].nominee.value in nominees &&
          exists i :: 0 <= i < |cats| && cats[i].id == fs[k].categoryId &&
            FavouriteKey(cats[i]) in params && fs[k].nominee.value.name == params[FavouriteKey(cats[i])]
      {
        if k < |before| {
          var i :| 0 <= i < |init| && init[i].id == before[k].categoryId &&
            FavouriteKey(init[i]) in params && before[k].nominee.value.name == params[FavouriteKey(init[i])];
          assert cats[i] == init[i];
        } else {
          assert cats[|cats| - 1] == last;
        }
      }
    }
  }

  /** A category whose favourite name is found among the nominees gets a
      favourite. */
  lemma {:induction false} FavouriteWhereNameResolves(uid: nat, cats: seq<Category>, nominees: seq<Nominee>, params: map<string, string>, i: nat)
    requires i < |cats|
    requires NomineeNamed(nominees, Param(params, FavouriteKey(cats[i]))).Some?
    ensures Entry(uid, cats[i].id, NomineeNamed(nominees, Param(params, FavouriteKey(cats[i])))) in FavouritesFor(uid, cats, nominees, params)
  {
    var init := cats[..|cats| - 1];
    if i < |cats| - 1 {
      assert init[i] == cats[i];
      FavouriteWhereNameResolves(uid, init, nominees, params, i);
    }
  }

  /** With distinct category ids, no two favourites share a category. */
  lemma {:induction false} OneFavouritePerCategory(uid: nat, cats: seq<Category>, nominees: seq<Nominee>, params: map<string, string>)
    requires UniqueCategoryIds(cats)
    ensures forall a, b :: 0 <= a < b < |FavouritesFor(uid, cats, nominees, params)| ==>
      FavouritesFor(uid, cats, nominees, params)[a].categoryId != FavouritesFor(uid, cats, nominees, params)[b].categoryId
  {
    if cats != [] {
      var init := cats[..|cats| - 1];
      var last := cats[|cats| - 1];
      assert UniqueCategoryIds(init) by {
        forall i, j | 0 <= i < j < |init| ensures init[i].id != init[j].id {
          assert init[i] == cats[i] && init[j] == cats[j];
        }
      }
      OneFavouritePerCategory(uid, init, nominees, params);
      FavouritesForShape(uid, init, nominees, params);
      var before := FavouritesFor(uid, init, nominees, params);
      var fs := FavouritesFor(uid, cats, nominees, params);
      var tail := FavouriteFor(uid, last, nominees, params);
      assert fs == before + tail;
      forall a, b | 0 <= a < b < |fs| ensures fs[a].categoryId != fs[b].categoryId {
        if b < |before| {
          assert fs[a] == before[a] && fs[b] == before[b];
        } else {
          assert fs[b] == tail[0] && fs[b].categoryId == last.id;
          assert fs[a] == before[a];
          var i :| 0 <= i < |init| && init[i].id == before[a].categoryId &&
            FavouriteKey(init[i]) in params && before[a].nominee.value.name == params[FavouriteKey(init[i])];
          assert init[i] == cats[i];
        }
      }
    }
  }

  /** A favourite's nominee need not be one of its category's nominees. */
  lemma FavouriteMayLieOutsideCategory()
    ensures exists cat: Category, nominees: seq<Nominee>, params: map<string, string> ::
      |FavouriteFor(0, cat, nominees, params)| == 1 &&
      FavouriteFor(0, cat, nominees, params)[0].nominee.value !in cat.nominees
  {
    var x, y := Nominee(0, "x"), Nominee(1, "y");
    var cat := Category(0, "best", [x], None);
    var params := map["best_fav" := "y"];
    assert FavouriteKey(cat) == "best_fav";
    assert NomineeNamed([y], Param(params, FavouriteKey(cat))) == Some(y);
    assert FavouriteFor(0, cat, [y], params) == [Entry(0, 0, Some(y))];
  }

  /** The completeness check counts request parameters, not categories: a form
      that leaves out a category's pick passes when enough other entries
      are present, and that category's pick then has no nominee. */
  lemma ParamCountAdmitsMissingPick()
    ensures exists cats: seq<Category>, params: map<string, string> ::
      |cats| == 2 && cats[1].name !in params &&
      Guard(Some(0), Some(0), false, |cats|, |params|) == Submitted &&
      PickFor(0, cats[1], params).nominee == None
  {
    var n := Nominee(0, "n");
    var cats := [Category(0, "a", [n], None), Category(1, "b", [n], None)];
    var params := map["t" := "", "s" := "", "c" := "", "a" := "n", "x" := "", "y" := ""];
    assert |params| == 6;
    assert cats[1].name == "b" && "b" !in params;
    assert Param(params, cats[1].name) == None;
    assert PickFor(0, cats[1], params).nominee == None;
    assert Guard(Some(0), Some(0), false, |cats|, |params|) == Submitted;
  }

  lemma {:induction false} EntriesOfConcat(a: seq<Entry>, b: seq<Entry>, uid: nat)
    ensures EntriesOf(a + b, uid) == EntriesOf(a, uid) + EntriesOf(b, uid)
  {
    if a != [] {
      assert (a + b)[0] == a[0];
      assert (a + b)[1..] == a[1..] + b;
      EntriesOfConcat(a[1..], b, uid);
      var head := if a[0].userId == uid then [a[0]] else [];
      assert EntriesOf(a + b, uid) == head + EntriesOf(a[1..] + b, uid);
      assert EntriesOf(a, uid) == head + EntriesOf(a[1..], uid);
      assert head + (EntriesOf(a[1..], uid) + EntriesOf(b, uid)) == (head + EntriesOf(a[1..], uid)) + EntriesOf(b, uid);
    } else {
      assert a + b == b;
    }
  }

  lemma {:induction false} EntriesOfWithout(es: seq<Entry>, uid: nat, v: nat)
    ensures EntriesOf(Without(es, uid), v) == if v == uid then [] else EntriesOf(es, v)
  {
    if es != [] {
      EntriesOfConcat(if es[0].userId != uid then [es[0]] else [], Without(es[1..], uid), v);
      EntriesOfWithout(es[1..], uid, v);
    }
  }

  lemma {:induction false} EntriesOfOwn(es: seq<Entry>, uid: nat, v: nat)
    requires forall k :: 0 <= k < |es| ==> es[k].userId == uid
    ensures EntriesOf(es, v) == if v == uid then es else []
  {
    if es != [] {
      EntriesOfOwn(es[1..], uid, v);
    }
  }

  /** Destroying a user's rows and appending new ones of that user leaves
      the user with exactly the new rows and every other user with their
      old rows. */
  lemma ReplaceEntries(es: seq<Entry>, added: seq<Entry>, uid: nat, v: nat)
    requires forall k :: 0 <= k < |added| ==> added[k].userId == uid
    ensures EntriesOf(Without(es, uid) + added, v) == if v == uid then added else EntriesOf(es, v)
  {
    EntriesOfConcat(Without(es, uid), added, v);
    EntriesOfWithout(es, uid, v);
    EntriesOfOwn(added, uid, v);
  }

  /** The picks and favourites built by one submission all belong to the
      submitting user. */
  lemma {:induction false} BuiltRowsAreOwn(uid: nat, cats: seq<Category>, nominees: seq<Nominee>, params: map<string, string>)
    ensures forall k :: 0 <= k < |PicksFor(uid, cats, params)| ==> PicksFor(uid, cats, params)[k].userId == uid
    ensures forall k :: 0 <= k < |FavouritesFor(uid, cats, nominees, params)| ==> FavouritesFor(uid, cats, nominees, params)[k].userId == uid
  {
    PicksForShape(uid, cats, params);
    FavouritesForShape(uid, cats, nominees, params);
  }

  /** Destroying rows keeps only rows that were there. */
  lemma {:induction false} WithoutKeepsOldRows(es: seq<Entry>, uid: nat)
    ensures forall e :: e in Without(es, uid) ==> e in es && e.userId != uid
  {
    if es != [] {
      WithoutKeepsOldRows(es[1..], uid);
    }
  }

  /** Every built pick and favourite names one of the categories, and every
      built favourite has a nominee. */
  lemma BuiltRowsReferToCategories(uid: nat, cats: seq<Category>, nominees: seq<Nominee>, params: map<string, string>)
    ensures forall e :: e in PicksFor(uid, cats, params) ==> CategoryIndex(cats, e.categoryId).Some?
    ensures forall e :: e in FavouritesFor(uid, cats, nominees, params) ==>
      CategoryIndex(cats, e.categoryId).Some? && e.nominee.Some?
  {
    PicksForShape(uid, cats, params);
    FavouritesForShape(uid, cats, nominees, params);
    forall e | e in PicksFor(uid, cats, params) ensures CategoryIndex(cats, e.categoryId).Some? {
      var k :| 0 <= k < |PicksFor(uid, cats, params)| && PicksFor(uid, cats, params)[k] == e;
      assert cats[k].id == e.categoryId;
    }
    forall e | e in FavouritesFor(uid, cats, nominees, params)
      ensures CategoryIndex(cats, e.categoryId).Some? && e.nominee.Some?
    {
      var k :| 0 <= k < |FavouritesFor(uid, cats, nominees, params)| && FavouritesFor(uid, cats, nominees, params)[k] == e;
      var i :| 0 <= i < |cats| && cats[i].id == e.categoryId &&
        FavouriteKey(cats[i]) in params && e.nominee.value.name == params[FavouriteKey(cats[i])];
    }
  }
}
