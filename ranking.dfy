/** What the two UPDATE statements of voty.rb compute, as functions over the
    user table: the correct-pick recount and the dense ranking, and
    `update_user_ranking`, which runs the ranking first and the recount
    second. */
module Ranking {
  import opened Model

  /** A pick counted by the recount query: its (category, nominee) pair is a
      winner row. A pick without a nominee never matches. */
  predicate Wins(p: Pick, cats: seq<Category>)
  {
    p.nominee.Some? && (p.categoryId, p.nominee.value) in WinnerRows(cats)
  }

  /** The recount query's value for user `uid`: the number of that user's
      winning picks, 0 when there are none. */
  function CorrectPickCount(picks: seq<Pick>, cats: seq<Category>, uid: nat): nat
  {
    if picks == [] then 0
    else (if picks[0].userId == uid && Wins(picks[0], cats) then 1 else 0)
         + CorrectPickCount(picks[1..], cats, uid)
  }

  /** UPDATE_CORRECT_PICKS_QUERY: every user, picked or not, gets the count. */
  function Recount(users: seq<User>, picks: seq<Pick>, cats: seq<Category>): (r: seq<User>)
  {
    seq(|users|, i requires 0 <= i < |users| =>
      users[i].(correctPicks := CorrectPickCount(picks, cats, users[i].id)))
  }

  /** The correct-pick column, in table order. */
  function Counts(users: seq<User>): (r: seq<int>)
    ensures |r| == |users| && forall i :: 0 <= i < |users| ==> r[i] == users[i].correctPicks
  {
    seq(|users|, i requires 0 <= i < |users| => users[i].correctPicks)
  }

  /** COUNT(DISTINCT x) over the values x of `xs` with x > c: each distinct
      value is counted at its last occurrence. */
  function DistinctAbove(xs: seq<int>, c: int): nat
  {
    if xs == [] then 0
    else (if xs[0] > c && xs[0] !in xs[1..] then 1 else 0) + DistinctAbove(xs[1..], c)
  }

  /** One plus the number of distinct correct-pick values strictly greater
      than `c`. */
  function DenseRank(users: seq<User>, c: int): int
  {
    DistinctAbove(Counts(users), c) + 1
  }

  /** UPDATE_USER_RANKING_QUERY: every user gets the dense rank of their
      current correct-pick count. */
  function RankAll(users: seq<User>): (r: seq<User>)
  {
    seq(|users|, i requires 0 <= i < |users| =>
      users[i].(ranking := DenseRank(users, users[i].correctPicks)))
  }

  /** update_user_ranking: rank on the counts as they are, then recount. */
  function UpdateUserRanking(users: seq<User>, picks: seq<Pick>, cats: seq<Category>): seq<User>
  {
    Recount(RankAll(users), picks, cats)
  }

  /** Every user's ranking is the dense rank of their correct-pick count. */
  ghost predicate RankingAgrees(users: seq<User>)
  {
    forall i :: 0 <= i < |users| ==> users[i].ranking == DenseRank(users, users[i].correctPicks)
  }

  // ----- the recount -----

  /** A user without picks is counted 0. */
  lemma {:induction false} NoPicksCountZero(picks: seq<Pick>, cats: seq<Category>, uid: nat)
    requires forall k :: 0 <= k < |picks| ==> picks[k].userId != uid
    ensures CorrectPickCount(picks, cats, uid) == 0
  {
    if picks != [] {
      NoPicksCountZero(picks[1..], cats, uid);
    }
  }

  /** Reference count through the model's own `is_correct`: the user's picks
      that have a nominee, whose category exists and for which is_correct
      holds. */
  function CorrectByVerdict(picks: seq<Pick>, cats: seq<Category>, uid: nat): nat
  {
    if picks == [] then 0
    else
      var p := picks[0];
      var k := CategoryIndex(cats, p.categoryId);
      (if p.userId == uid && p.nominee.Some? && k.Some? && p.IsCorrect(cats[k.value]) then 1 else 0)
      + CorrectByVerdict(picks[1..], cats, uid)
  }

  /** The recount query agrees with is_correct, pick by pick, for every user. */
  lemma {:induction false} RecountMatchesVerdict(picks: seq<Pick>, cats: seq<Category>, uid: nat)
    requires UniqueCategoryIds(cats)
    ensures CorrectPickCount(picks, cats, uid) == CorrectByVerdict(picks, cats, uid)
  {
    if picks != [] {
      var p := picks[0];
      var k := CategoryIndex(cats, p.categoryId);
      if p.nominee.Some? && k.Some? {
        WinnerRowIffCorrect(p, cats, k.value);
      }
      RecountMatchesVerdict(picks[1..], cats, uid);
    }
  }

  /** The number of user `uid`'s picks that do not win under `before` but
      win under `after`. */
  function Flips(picks: seq<Pick>, before: seq<Category>, after: seq<Category>, uid: nat): nat
  {
    if picks == [] then 0
    else (if picks[0].userId == uid && !Wins(picks[0], before) && Wins(picks[0], after) then 1 else 0)
         + Flips(picks[1..], before, after, uid)
  }

  /** Changing the winners changes a user's count by the picks that now win
      minus the picks that no longer win. */
  lemma {:induction false} RecountDifference(picks: seq<Pick>, before: seq<Category>, after: seq<Category>, uid: nat)
    ensures CorrectPickCount(picks, after, uid)
         == CorrectPickCount(picks, before, uid) + Flips(picks, before, after, uid) - Flips(picks, after, before, uid)
  {
    if picks != [] {
      RecountDifference(picks[1..], before, after, uid);
    }
  }

  /** Re-judging category `k` keeps the verdict of every pick in another
      category. */
  lemma OtherCategoryKeepsVerdict(p: Pick, cats: seq<Category>, k: nat, w: Option<Nominee>)
    requires UniqueCategoryIds(cats) && k < |cats| && p.categoryId != cats[k].id
    ensures Wins(p, cats[k := cats[k].(winner := w)]) <==> Wins(p, cats)
  {
    var cats' := cats[k := cats[k].(winner := w)];
    if p.nominee.Some? {
      var row := (p.categoryId, p.nominee.value);
      if row in WinnerRows(cats) {
        var i :| 0 <= i < |cats| && cats[i].winner.Some? && (cats[i].id, cats[i].winner.value) == row;
        assert cats'[i] == cats[i];
      }
      if row in WinnerRows(cats') {
        var i :| 0 <= i < |cats'| && cats'[i].winner.Some? && (cats'[i].id, cats'[i].winner.value) == row;
        assert cats'[i] == cats[i];
      }
    }
  }

  /** Re-judging category `k` leaves unchanged the count of every user
      whose picks in that category keep their verdict: those with no pick
      there, and those whose pick neither became nor stopped being correct. */
  lemma {:induction false} RejudgeKeepsOtherCounts(picks: seq<Pick>, cats: seq<Category>, k: nat, w: Option<Nominee>, uid: nat)
    requires UniqueCategoryIds(cats) && k < |cats|
    requires forall j :: 0 <= j < |picks| && picks[j].userId == uid && picks[j].categoryId == cats[k].id ==>
      (Wins(picks[j], cats[k := cats[k].(winner := w)]) <==> Wins(picks[j], cats))
    ensures CorrectPickCount(picks, cats[k := cats[k].(winner := w)], uid) == CorrectPickCount(picks, cats, uid)
  {
    if picks != [] {
      var p := picks[0];
      if p.userId == uid && p.categoryId != cats[k].id {
        OtherCategoryKeepsVerdict(p, cats, k, w);
      }
      RejudgeKeepsOtherCounts(picks[1..], cats, k, w, uid);
    }
  }

  // ----- the dense rank -----

  /** A higher threshold never counts more values. */
  lemma {:induction false} DistinctAboveAntitone(xs: seq<int>, lo: int, hi: int)
    requires lo <= hi
    ensures DistinctAbove(xs, hi) <= DistinctAbove(xs, lo)
  {
    if xs != [] {
      DistinctAboveAntitone(xs[1..], lo, hi);
    }
  }

  /** Raising the threshold past a value that occurs counts strictly fewer. */
  lemma {:induction false} DistinctAboveDrops(xs: seq<int>, lo: int, hi: int)
    requires lo < hi && hi in xs
    ensures DistinctAbove(xs, hi) < DistinctAbove(xs, lo)
  {
    if xs[0] == hi && hi !in xs[1..] {
      DistinctAboveAntitone(xs[1..], lo, hi);
    } else {
      DistinctAboveDrops(xs[1..], lo, hi);
    }
  }

  /** No value of `xs` lies in (lo, hi]: both thresholds count the same. */
  lemma {:induction false} DistinctAboveGap(xs: seq<int>, lo: int, hi: int)
    requires lo <= hi
    requires forall k :: 0 <= k < |xs| ==> !(lo < xs[k] <= hi)
    ensures DistinctAbove(xs, hi) == DistinctAbove(xs, lo)
  {
    if xs != [] {
      DistinctAboveGap(xs[1..], lo, hi);
    }
  }

  /** When `m` is the least value above `c`, moving the threshold from `c`
      to `m` drops exactly one distinct value. */
  lemma {:induction false} DistinctAboveStep(xs: seq<int>, c: int, m: int)
    requires c < m && m in xs
    requires forall k :: 0 <= k < |xs| && xs[k] > c ==> xs[k] >= m
    ensures DistinctAbove(xs, c) == DistinctAbove(xs, m) + 1
  {
    var rest := xs[1..];
    if xs[0] == m && m !in rest {
      DistinctAboveGap(rest, c, m);
    } else {
      DistinctAboveStep(rest, c, m);
    }
  }

  /** Nothing is counted exactly when no value exceeds the threshold. */
  lemma {:induction false} DistinctAboveZero(xs: seq<int>, c: int)
    ensures DistinctAbove(xs, c) == 0 <==> forall k :: 0 <= k < |xs| ==> xs[k] <= c
  {
    if xs != [] {
      DistinctAboveZero(xs[1..], c);
      if xs[0] > c && xs[0] in xs[1..] {
        var k :| 0 <= k < |xs[1..]| && xs[1..][k] == xs[0];
        assert xs[1..][k] > c;
      }
    }
  }

  /** The ranking depends only on the correct-pick column. */
  lemma SameCountsSameRanks(us: seq<User>, vs: seq<User>, c: int)
    requires |us| == |vs|
    requires forall i :: 0 <= i < |us| ==> us[i].correctPicks == vs[i].correctPicks
    ensures DenseRank(us, c) == DenseRank(vs, c)
  {
    assert Counts(us) == Counts(vs);
  }

  /** Ranks order users exactly as their counts do, in reverse: equal counts
      share a rank and a higher count gets a strictly smaller rank. */
  lemma RankOrder(users: seq<User>, i: nat, j: nat)
    requires i < |users| && j < |users|
    ensures users[i].correctPicks > users[j].correctPicks
        <==> DenseRank(users, users[i].correctPicks) < DenseRank(users, users[j].correctPicks)
    ensures users[i].correctPicks == users[j].correctPicks
        <==> DenseRank(users, users[i].correctPicks) == DenseRank(users, users[j].correctPicks)
  {
    var xs, ci, cj := Counts(users), users[i].correctPicks, users[j].correctPicks;
    assert xs[i] == ci && xs[j] == cj;
    if ci > cj {
      DistinctAboveDrops(xs, cj, ci);
    } else if cj > ci {
      DistinctAboveDrops(xs, ci, cj);
    }
  }

  /** The smallest correct-pick count above `c`, given one exists. */
  lemma LeastAbove(users: seq<User>, c: int, i: nat) returns (j: nat)
    requires i < |users| && users[i].correctPicks > c
    ensures j < |users| && users[j].correctPicks > c
    ensures forall k :: 0 <= k < |users| && users[k].correctPicks > c ==> users[j].correctPicks <= users[k].correctPicks
  {
    j := i;
    var k := 0;
    while k < |users|
      invariant k <= |users| && j < |users| && users[j].correctPicks > c
      invariant forall m :: 0 <= m < k && users[m].correctPicks > c ==> users[j].correctPicks <= users[m].correctPicks
    {
      if c < users[k].correctPicks < users[j].correctPicks {
        j := k;
      }
      k := k + 1;
    }
  }

  /** The ranks are dense: below any rank r > 1 some user holds rank r - 1. */
  lemma RankDense(users: seq<User>, i: nat)
    requires i < |users|
    requires DenseRank(users, users[i].correctPicks) > 1
    ensures exists j :: 0 <= j < |users| && DenseRank(users, users[j].correctPicks) == DenseRank(users, users[i].correctPicks) - 1
  {
    var xs, c := Counts(users), users[i].correctPicks;
    DistinctAboveZero(xs, c);
    var k :| 0 <= k < |xs| && xs[k] > c;
    var j := LeastAbove(users, c, k);
    assert xs[j] == users[j].correctPicks;
    DistinctAboveStep(xs, c, users[j].correctPicks);
  }

  /** Rank 1 belongs exactly to the users with the highest count. */
  lemma TopRank(users: seq<User>, i: nat)
    requires i < |users|
    ensures DenseRank(users, users[i].correctPicks) == 1
        <==> forall j :: 0 <= j < |users| ==> users[j].correctPicks <= users[i].correctPicks
  {
    DistinctAboveZero(Counts(users), users[i].correctPicks);
  }

  function Counted(counts: seq<int>): seq<User>
  {
    seq(|counts|, i requires 0 <= i < |counts| => NewUser(i, "", "", "").(correctPicks := counts[i]))
  }

  /** Counts [5, 5, 3, 1] rank [1, 1, 2, 3]. */
  lemma DenseRankExample()
    ensures RankAll(Counted([5, 5, 3, 1]))[0].ranking == 1
    ensures RankAll(Counted([5, 5, 3, 1]))[1].ranking == 1
    ensures RankAll(Counted([5, 5, 3, 1]))[2].ranking == 2
    ensures RankAll(Counted([5, 5, 3, 1]))[3].ranking == 3
  {
    var us := Counted([5, 5, 3, 1]);
    assert us[0].correctPicks == 5 && us[1].correctPicks == 5;
    assert us[2].correctPicks == 3 && us[3].correctPicks == 1;
    assert Counts(us) == [5, 5, 3, 1];
    assert DistinctAbove([1], 5) == 0 && DistinctAbove([1], 3) == 0 && DistinctAbove([1], 1) == 0;
  }

  // ----- update_user_ranking -----

  /** The recount does not depend on the ranking or counts it overwrites. */
  lemma RecountIgnoresRanking(us: seq<User>, vs: seq<User>, picks: seq<Pick>, cats: seq<Category>)
    requires |us| == |vs|
    requires forall i :: 0 <= i < |us| ==> us[i].id == vs[i].id
    ensures forall i :: 0 <= i < |us| ==> Recount(us, picks, cats)[i].correctPicks == Recount(vs, picks, cats)[i].correctPicks
  {
  }

  /** update_user_ranking writes only the two leaderboard columns: each
      user's new count is the recount, and the new ranking is the dense rank
      of the count from before the recount. */
  lemma UpdateTouchesOnlyLeaderboard(users: seq<User>, picks: seq<Pick>, cats: seq<Category>)
    ensures |UpdateUserRanking(users, picks, cats)| == |users|
    ensures forall i :: 0 <= i < |users| ==>
      UpdateUserRanking(users, picks, cats)[i] ==
        users[i].(correctPicks := CorrectPickCount(picks, cats, users[i].id),
                  ranking := DenseRank(users, users[i].correctPicks))
  {
  }

  /** update_user_ranking keeps the user ids, so it keeps them distinct. */
  lemma UpdateKeepsUniqueIds(users: seq<User>, picks: seq<Pick>, cats: seq<Category>)
    requires UniqueUserIds(users)
    ensures UniqueUserIds(UpdateUserRanking(users, picks, cats))
  {
    UpdateTouchesOnlyLeaderboard(users, picks, cats);
  }

  /** One run ranks on the counts from before the recount, so its ranking
      can disagree with the counts it leaves behind. */
  lemma OneRunCanBeStale()
    ensures exists users: seq<User>, picks: seq<Pick>, cats: seq<Category> ::
      !RankingAgrees(UpdateUserRanking(users, picks, cats))
  {
    var n := Nominee(0, "a");
    var cats := [Category(0, "c", [n], Some(n))];
    var users := [NewUser(0, "u0", "A", "a"), NewUser(1, "u1", "B", "b")];
    var picks := [Entry(0, 0, Some(n))];
    assert (cats[0].id, cats[0].winner.value) in WinnerRows(cats);
    assert Wins(picks[0], cats);
    var after := UpdateUserRanking(users, picks, cats);
    assert CorrectPickCount(picks, cats, 0) == 1;
    assert CorrectPickCount(picks, cats, 1) == 0;
    assert Counts(users) == [0, 0];
    assert DistinctAbove([0], 0) == 0;
    assert after[1].ranking == 1 && after[1].correctPicks == 0;
    assert after[0].correctPicks == 1;
    assert Counts(after) == [1, 0];
    assert DistinctAbove([0], 0) == 0;
    assert !RankingAgrees(after);
  }

  /** Two runs with nothing changed in between reach a fixed point whose
      ranking agrees with the recounted correct picks. */
  lemma {:induction false} TwoRunsSettle(users: seq<User>, picks: seq<Pick>, cats: seq<Category>)
    ensures RankingAgrees(UpdateUserRanking(UpdateUserRanking(users, picks, cats), picks, cats))
    ensures var twice := UpdateUserRanking(UpdateUserRanking(users, picks, cats), picks, cats);
            UpdateUserRanking(twice, picks, cats) == twice
  {
    var once := UpdateUserRanking(users, picks, cats);
    var twice := UpdateUserRanking(once, picks, cats);
    var thrice := UpdateUserRanking(twice, picks, cats);
    assert |once| == |twice| == |thrice| == |users|;
    forall i | 0 <= i < |users|
      ensures twice[i].correctPicks == once[i].correctPicks
    {
    }
    forall i | 0 <= i < |users|
      ensures twice[i].ranking == DenseRank(twice, twice[i].correctPicks)
    {
      SameCountsSameRanks(once, twice, twice[i].correctPicks);
    }
    forall i | 0 <= i < |users|
      ensures thrice[i] == twice[i]
    {
      SameCountsSameRanks(once, twice, twice[i].correctPicks);
    }
  }
}
