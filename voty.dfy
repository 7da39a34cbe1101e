/** The application's tables and the parts of voty.rb that change them in
    place: the vote-lock preference, the two ranking updates, the pick
    submission, the winner update, and the profile's count of correct
    favourites. */
module Voty {
  import opened Model
  import opened Ranking
  import opened Submission
  import opened Admin

  /** The number of a user's favourites whose category exists and for which
      is_correct holds, counted in row order. */
  function CorrectCount(favs: seq<Favourite>, cats: seq<Category>): nat
  {
    if favs == [] then 0
    else
      var f := favs[|favs| - 1];
      var c := CategoryIndex(cats, f.categoryId);
      CorrectCount(favs[..|favs| - 1], cats) + (if c.Some? && f.IsCorrect(cats[c.value]) then 1 else 0)
  }

  /** A user cannot have more correct favourites than favourites. */
  lemma {:induction false} CorrectCountBounded(favs: seq<Favourite>, cats: seq<Category>)
    ensures CorrectCount(favs, cats) <= |favs|
  {
    if favs != [] {
      CorrectCountBounded(favs[..|favs| - 1], cats);
    }
  }

  /** While every category is open, no favourite with a nominee is correct. */
  lemma {:induction false} NoCorrectWhileOpen(favs: seq<Favourite>, cats: seq<Category>)
    requires forall i :: 0 <= i < |cats| ==> cats[i].winner == None
    requires forall k :: 0 <= k < |favs| ==> favs[k].nominee.Some?
    ensures CorrectCount(favs, cats) == 0
  {
    if favs != [] {
      NoCorrectWhileOpen(favs[..|favs| - 1], cats);
    }
  }

  /** Every pick and favourite names an existing category, and every
      favourite has a nominee. */
  predicate RowsReferToCategories(ps: seq<Pick>, fs: seq<Favourite>, cats: seq<Category>)
  {
    && (forall e :: e in ps ==> CategoryIndex(cats, e.categoryId).Some?)
    && (forall e :: e in fs ==> CategoryIndex(cats, e.categoryId).Some? && e.nominee.Some?)
  }

  /** Replacing a user's rows keeps every row pointing at an existing
      category, and every favourite with a nominee. */
  lemma ReplacementKeepsReferences(ps: seq<Pick>, fs: seq<Favourite>, cats: seq<Category>,
                                   noms: seq<Nominee>, uid: nat, params: map<string, string>)
    requires RowsReferToCategories(ps, fs, cats)
    ensures RowsReferToCategories(Without(ps, uid) + PicksFor(uid, cats, params),
                                  Without(fs, uid) + FavouritesFor(uid, cats, noms, params), cats)
  {
    WithoutKeepsOldRows(ps, uid);
    WithoutKeepsOldRows(fs, uid);
    BuiltRowsReferToCategories(uid, cats, noms, params);
  }

  /** The references of the rows depend only on the category ids. */
  lemma RowsReferById(ps: seq<Pick>, fs: seq<Favourite>, a: seq<Category>, b: seq<Category>)
    requires |a| == |b| && forall i :: 0 <= i < |a| ==> a[i].id == b[i].id
    requires RowsReferToCategories(ps, fs, a)
    ensures RowsReferToCategories(ps, fs, b)
  {
    forall id: nat {
      CategoryIndexById(a, b, id);
    }
  }

  /** After a submission the user owns exactly the new picks and
      favourites, and every other user keeps their rows. */
  lemma SubmissionReplacesRows(ps: seq<Pick>, fs: seq<Favourite>, uid: nat, cats: seq<Category>,
                               noms: seq<Nominee>, params: map<string, string>)
    ensures EntriesOf(Without(ps, uid) + PicksFor(uid, cats, params), uid) == PicksFor(uid, cats, params)
    ensures EntriesOf(Without(fs, uid) + FavouritesFor(uid, cats, noms, params), uid) == FavouritesFor(uid, cats, noms, params)
    ensures forall v :: v != uid ==>
      && EntriesOf(Without(ps, uid) + PicksFor(uid, cats, params), v) == EntriesOf(ps, v)
      && EntriesOf(Without(fs, uid) + FavouritesFor(uid, cats, noms, params), v) == EntriesOf(fs, v)
  {
    BuiltRowsAreOwn(uid, cats, noms, params);
    ReplaceEntries(ps, PicksFor(uid, cats, params), uid, uid);
    ReplaceEntries(fs, FavouritesFor(uid, cats, noms, params), uid, uid);
    forall v | v != uid
      ensures EntriesOf(Without(ps, uid) + PicksFor(uid, cats, params), v) == EntriesOf(ps, v)
      ensures EntriesOf(Without(fs, uid) + FavouritesFor(uid, cats, noms, params), v) == EntriesOf(fs, v)
    {
      ReplaceEntries(ps, PicksFor(uid, cats, params), uid, v);
      ReplaceEntries(fs, FavouritesFor(uid, cats, noms, params), uid, v);
    }
  }

  /** The database: users, categories, nominees, picks and favourites in
      table order, and the status of the "votes_are_open" preference. */
  class Store {
    var users: seq<User>
    var categories: seq<Category>
    var nominees: seq<Nominee>
    var picks: seq<Pick>
    var favourites: seq<Favourite>
    var voteStatus: int

    /** User ids and category ids are distinct, every category's nominee is
        a row of the nominee table, each winner is one of its category's
        nominees, every pick and favourite names an existing category, and
        every favourite has a nominee. */
    ghost predicate Valid()
      reads this
    {
      && UniqueUserIds(users)
      && UniqueCategoryIds(categories)
      && (forall i, n :: 0 <= i < |categories| && n in categories[i].nominees ==> n in nominees)
      && (forall i :: 0 <= i < |categories| && categories[i].winner.Some? ==>
            categories[i].winner.value in categories[i].nominees)
      && RowsReferToCategories(picks, favourites, categories)
    }

    /** A fresh database over the seeded categories and nominees and the
        users the login callback has created so far (each with the column
        defaults of `NewUser`): no picks, every category open, and the
        preference at its default 0. */
    constructor (us: seq<User>, cats: seq<Category>, noms: seq<Nominee>)
      requires UniqueUserIds(us)
      requires forall i :: 0 <= i < |us| ==> us[i].picked == 0 && us[i].correctPicks == 0 && us[i].ranking == 1
      requires UniqueCategoryIds(cats)
      requires forall i, n :: 0 <= i < |cats| && n in cats[i].nominees ==> n in noms
      requires forall i :: 0 <= i < |cats| ==> cats[i].winner == None
      ensures Valid()
      ensures users == us && categories == cats && nominees == noms
      ensures picks == [] && favourites == []
      ensures voteStatus == 0 && VotesAreClosed()
    {
      users := us;
      categories := cats;
      nominees := noms;
      picks := [];
      favourites := [];
      voteStatus := 0;
    }

    /** votes_are_closed?: closed whenever the status is not 1. */
    predicate VotesAreClosed()
      reads this
    {
      voteStatus != 1
    }

    /** lock_votes. */
    method LockVotes()
      modifies this`voteStatus
      ensures voteStatus == 0 && VotesAreClosed()
    {
      voteStatus := 0;
    }

    /** open_votes. */
    method OpenVotes()
      modifies this`voteStatus
      ensures voteStatus == 1 && !VotesAreClosed()
    {
      voteStatus := 1;
    }

    /** `post '/admin/lock/votes'`: voting ends up closed exactly when the
        form asked for the lock. */
    method SetVoteLock(params: map<string, string>)
      modifies this`voteStatus
      ensures VotesAreClosed() <==> LockRequested(params)
      ensures voteStatus == if LockRequested(params) then 0 else 1
    {
      if Param(params, "lock_votes") == Some("lock_votes") {
        LockVotes();
      } else {
        OpenVotes();
      }
    }

    /** UPDATE_USER_RANKING_QUERY, row by row over a snapshot of the table. */
    method RunRankingQuery()
      modifies this`users
      ensures users == RankAll(old(users))
    {
      var snapshot := users;
      var i := 0;
      while i < |users|
        invariant |users| == |snapshot| && i <= |users|
        invariant forall j :: 0 <= j < i ==> users[j] == RankAll(snapshot)[j]
        invariant forall j :: i <= j < |users| ==> users[j] == snapshot[j]
      {
        users := users[i := users[i].(ranking := DenseRank(snapshot, snapshot[i].correctPicks))];
        i := i + 1;
      }
    }

    /** UPDATE_CORRECT_PICKS_QUERY, row by row. */
    method RunCorrectPicksQuery()
      modifies this`users
      ensures users == Recount(old(users), picks, categories)
    {
      var i := 0;
      while i < |users|
        invariant |users| == |old(users)| && i <= |users|
        invariant forall j :: 0 <= j < i ==> users[j] == Recount(old(users), picks, categories)[j]
        invariant forall j :: i <= j < |users| ==> users[j] == old(users)[j]
      {
        users := users[i := users[i].(correctPicks := CorrectPickCount(picks, categories, users[i].id))];
        i := i + 1;
      }
    }

    /** update_user_ranking: the ranking query first, then the recount. */
    method UpdateUserRanking()
      modifies this`users
      ensures users == Ranking.UpdateUserRanking(old(users), picks, categories)
    {
      RunRankingQuery();
      RunCorrectPicksQuery();
    }

    /** `post '/:twitter/picks'`. The first failing guard decides and
        changes nothing. Otherwise the user's picks and favourites are
        destroyed, one pick per category and the favourites whose names
        resolve are appended, the user is marked as having picked, and the
        ranking is updated. */
    method SubmitPicks(handle: string, session: Option<string>, params: map<string, string>) returns (r: Outcome)
      requires Valid()
      modifies this
      ensures Valid()
      ensures r == Guard(UserByHandle(old(users), handle), UserByUid(old(users), session),
                         old(VotesAreClosed()), |old(categories)|, |params|)
      ensures categories == old(categories) && nominees == old(nominees) && voteStatus == old(voteStatus)
      ensures r != Submitted ==> users == old(users) && picks == old(picks) && favourites == old(favourites)
      ensures r == Submitted ==>
        var k := UserByHandle(old(users), handle).value;
        var uid := old(users)[k].id;
        && picks == Without(old(picks), uid) + PicksFor(uid, categories, params)
        && favourites == Without(old(favourites), uid) + FavouritesFor(uid, categories, nominees, params)
        && users == Ranking.UpdateUserRanking(old(users)[k := old(users)[k].(picked := 1)], picks, categories)
    {
      var target := UserByHandle(users, handle);
      var auth := UserByUid(users, session);
      if target.None? || target != auth {
        r := NotOwner;
        return;
      }
      if VotesAreClosed() {
        r := VotesClosed;
        return;
      }
      if |categories| > |params| - ExtraParams {
        r := Incomplete;
        return;
      }
      StoreSubmission(target.value, params);
      r := Submitted;
    }

    /** The accepted path for the user in row `k`: destroy that user's
        picks and favourites, append the new ones, set `picked` and update
        the ranking. */
    method StoreSubmission(k: nat, params: map<string, string>)
      requires Valid() && k < |users|
      modifies this`users, this`picks, this`favourites
      ensures Valid()
      ensures var uid := old(users)[k].id;
        && picks == Without(old(picks), uid) + PicksFor(uid, categories, params)
        && favourites == Without(old(favourites), uid) + FavouritesFor(uid, categories, nominees, params)
        && users == Ranking.UpdateUserRanking(old(users)[k := old(users)[k].(picked := 1)], picks, categories)
    {
      var uid := users[k].id;
      ReplacementKeepsReferences(picks, favourites, categories, nominees, uid, params);
      picks := Without(picks, uid);
      favourites := Without(favourites, uid);
      AppendSubmission(uid, params);
      users := users[k := users[k].(picked := 1)];
      UpdateUserRanking();
      UpdateKeepsUniqueIds(old(users)[k := old(users)[k].(picked := 1)], picks, categories);
    }

    /** The loop over the categories: append each category's pick and, when
        its name resolves, its favourite. */
    method AppendSubmission(uid: nat, params: map<string, string>)
      modifies this`picks, this`favourites
      ensures picks == old(picks) + PicksFor(uid, categories, params)
      ensures favourites == old(favourites) + FavouritesFor(uid, categories, nominees, params)
    {
      var cats, noms := categories, nominees;
      var ps, fs := picks, favourites;
      var i := 0;
      while i < |cats|
        invariant i <= |cats|
        invariant ps == old(picks) + PicksFor(uid, cats[..i], params)
        invariant fs == old(favourites) + FavouritesFor(uid, cats[..i], noms, params)
      {
        var cat := cats[i];
        var pick := Entry(uid, cat.id, NomineeNamed(cat.nominees, Param(params, cat.name)));
        var faved := NomineeNamed(noms, Param(params, FavouriteKey(cat)));
        PicksForExtend(uid, cats, i, params);
        FavouritesForExtend(uid, cats, noms, i, params);
        AppendAssoc(old(picks), PicksFor(uid, cats[..i], params), [pick]);
        AppendAssoc(old(favourites), FavouritesFor(uid, cats[..i], noms, params), FavouriteFor(uid, cat, noms, params));
        ps := ps + [pick];
        if faved.Some? {
          fs := fs + [Entry(uid, cat.id, faved)];
        }
        i := i + 1;
      }
      assert cats[..i] == cats;
      picks, favourites := ps, fs;
    }

    /** `post '/admin/update/winners'`: every category named in the form is
        re-judged within its own nominees, then the ranking is updated. */
    method UpdateWinners(params: map<string, string>)
      requires Valid()
      modifies this`categories, this`users
      ensures Valid()
      ensures categories == WinnersUpdated(old(categories), params)
      ensures users == Ranking.UpdateUserRanking(old(users), picks, categories)
    {
      var i := 0;
      while i < |categories|
        invariant |categories| == |old(categories)| && i <= |categories|
        invariant forall j :: 0 <= j < i ==> categories[j] == WinnersUpdated(old(categories), params)[j]
        invariant forall j :: i <= j < |categories| ==> categories[j] == old(categories)[j]
        invariant users == old(users)
      {
        var cat := categories[i];
        if cat.name in params {
          categories := categories[i := cat.(winner := NomineeNamed(cat.nominees, Param(params, cat.name)))];
        }
        i := i + 1;
      }
      UpdateUserRanking();
      UpdateKeepsUniqueIds(old(users), picks, categories);
      WinnersStayEligible(old(categories), params);
      RowsReferById(picks, favourites, old(categories), categories);
    }

    /** The correct-favourite count of `get '/:twitter'`: None when the
        profile redirects (no such user, or the user has not picked). */
    method CorrectFavourites(handle: string) returns (r: Option<nat>)
      requires Valid()
      ensures r.None? <==> UserByHandle(users, handle).None? || users[UserByHandle(users, handle).value].picked == 0
      ensures r.Some? ==>
        r.value == CorrectCount(EntriesOf(favourites, users[UserByHandle(users, handle).value].id), categories)
    {
      var k := UserByHandle(users, handle);
      if k.None? || users[k.value].picked == 0 {
        r := None;
        return;
      }
      var mine := EntriesOf(favourites, users[k.value].id);
      var n := 0;
      var i := 0;
      while i < |mine|
        invariant i <= |mine|
        invariant n == CorrectCount(mine[..i], categories)
      {
        var fav := mine[i];
        var c := CategoryIndex(categories, fav.categoryId);
        if c.Some? && fav.IsCorrect(categories[c.value]) {
          n := n + 1;
        }
        assert mine[..i + 1][..i] == mine[..i];
        i := i + 1;
      }
      assert mine[..i] == mine;
      r := Some(n);
    }
  }
}
