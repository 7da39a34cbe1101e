/** The entities of the contest (model.rb): users, categories with their
    nominees and at most one winner, picks and favourites, the vote-lock
    preference, and how a pick or a favourite is judged against its
    category's winner. Rows that the database keys by id are values here:
    two nominees are the same nominee when they are equal values. */
module Model {

  datatype Option<T> = None | Some(value: T)

  datatype Nominee = Nominee(id: nat, name: string)

  /** A category, its eligible nominees in table order, and its winner: the
      nominee its single WinnerCategory row links to, or None while open. */
  datatype Category = Category(id: nat, name: string, nominees: seq<Nominee>, winner: Option<Nominee>)

  const DefaultImageUrl := "img/default_avatar.jpg"

  /** A user row. `picked` is 1 once picks were submitted; `correctPicks`
      and `ranking` are the denormalised leaderboard columns. */
  datatype User = User(id: nat, uid: string, name: string, handle: string, imageUrl: string,
                       picked: int, correctPicks: int, ranking: int)

  /** A user as created with the column defaults. */
  function NewUser(id: nat, uid: string, name: string, handle: string): (u: User)
    ensures u.id == id && u.uid == uid && u.name == name && u.handle == handle
    ensures u.picked == 0 && u.correctPicks == 0 && u.ranking == 1
    ensures u.imageUrl == DefaultImageUrl
  {
    User(id, uid, name, handle, DefaultImageUrl, 0, 0, 1)
  }

  /** A Pick or a Favourite row: both have the same columns and the same
      two verdicts. A pick's nominee is None when the submitted name matched
      no nominee of its category. */
  datatype Entry = Entry(userId: nat, categoryId: nat, nominee: Option<Nominee>)
  {
    /** is_correct: the category's winner equals this entry's nominee. */
    predicate IsCorrect(cat: Category)
    {
      cat.winner == nominee
    }

    /** is_open: the category has no winner yet. */
    predicate IsOpen(cat: Category)
    {
      cat.winner == None
    }
  }

  type Pick = Entry
  type Favourite = Entry

  /** The three verdicts a view can show for an entry. */
  datatype Verdict = Open | Correct | Incorrect

  /** Reference verdict for a chosen nominee in a category. */
  function Judge(cat: Category, n: Nominee): Verdict
  {
    match cat.winner
    case None => Open
    case Some(w) => if w == n then Correct else Incorrect
  }

  /** For an entry with a nominee, is_open and is_correct give exactly the
      reference verdict, and the two never hold together. */
  lemma VerdictAgrees(e: Entry, cat: Category)
    requires e.nominee.Some?
    ensures Judge(cat, e.nominee.value) == Open <==> e.IsOpen(cat)
    ensures Judge(cat, e.nominee.value) == Correct <==> e.IsCorrect(cat)
    ensures Judge(cat, e.nominee.value) == Incorrect <==> !e.IsOpen(cat) && !e.IsCorrect(cat)
    ensures !(e.IsOpen(cat) && e.IsCorrect(cat))
  {
  }

  /** A pick without a nominee in an open category is both open and
      correct, because nil equals nil. */
  lemma NilPickInOpenCategory(uid: nat, cat: Category)
    requires cat.winner == None
    ensures Entry(uid, cat.id, None).IsOpen(cat) && Entry(uid, cat.id, None).IsCorrect(cat)
  {
  }

  predicate UniqueUserIds(users: seq<User>)
  {
    forall i, j :: 0 <= i < j < |users| ==> users[i].id != users[j].id
  }

  predicate UniqueCategoryIds(cats: seq<Category>)
  {
    forall i, j :: 0 <= i < j < |cats| ==> cats[i].id != cats[j].id
  }

  /** The position of the first element satisfying `p`: the search behind
      every `first(...)` lookup and every `belongs_to` association. */
  function FirstIndex<T>(s: seq<T>, p: T -> bool): (r: Option<nat>)
    ensures r.Some? ==> r.value < |s| && p(s[r.value])
    ensures r.Some? ==> forall j :: 0 <= j < r.value ==> !p(s[j])
    ensures r.None? <==> forall j :: 0 <= j < |s| ==> !p(s[j])
  {
    if s == [] then None
    else if p(s[0]) then Some(0)
    else match FirstIndex(s[1..], p)
      case None => None
      case Some(k) => Some(k + 1)
  }

  /** The position of the first category with the given id (the
      `belongs_to :category` association). */
  function CategoryIndex(cats: seq<Category>, id: nat): (r: Option<nat>)
    ensures r.Some? ==> r.value < |cats| && cats[r.value].id == id
    ensures r.Some? ==> forall j :: 0 <= j < r.value ==> cats[j].id != id
    ensures r.None? <==> forall j :: 0 <= j < |cats| ==> cats[j].id != id
  {
    FirstIndex(cats, (c: Category) => c.id == id)
  }

  /** The category lookup depends only on the ids. */
  lemma CategoryIndexById(a: seq<Category>, b: seq<Category>, id: nat)
    requires |a| == |b| && forall i :: 0 <= i < |a| ==> a[i].id == b[i].id
    ensures CategoryIndex(a, id) == CategoryIndex(b, id)
  {
  }

  /** `params[key]`: the submitted form value, nil when absent. */
  function Param(params: map<string, string>, key: string): Option<string>
  {
    if key in params then Some(params[key]) else None
  }

  /** `first(:name => name)` over a list of nominees: the first nominee
      carrying the submitted name; nil when no name was submitted or no
      nominee carries it. */
  function NomineeNamed(ns: seq<Nominee>, name: Option<string>): (r: Option<Nominee>)
    ensures r.Some? ==> name.Some? && r.value in ns && r.value.name == name.value
    ensures r.Some? ==>
      exists k :: 0 <= k < |ns| && ns[k] == r.value && forall j :: 0 <= j < k ==> ns[j].name != name.value
    ensures r.None? <==> name.None? || forall j :: 0 <= j < |ns| ==> ns[j].name != name.value
  {
    if name.None? then None
    else match FirstIndex(ns, (n: Nominee) => n.name == name.value)
      case None => None
      case Some(k) => Some(ns[k])
  }

  /** `User.first(:twitter_handle => handle)`: the first user row with that handle. */
  function UserByHandle(users: seq<User>, handle: string): (r: Option<nat>)
    ensures r.Some? ==> r.value < |users| && users[r.value].handle == handle
    ensures r.Some? ==> forall j :: 0 <= j < r.value ==> users[j].handle != handle
    ensures r.None? <==> forall j :: 0 <= j < |users| ==> users[j].handle != handle
  {
    FirstIndex(users, (u: User) => u.handle == handle)
  }

  /** `User.first(:uid => uid)`: the first user row with that external id;
      nil when there is no session id. */
  function UserByUid(users: seq<User>, uid: Option<string>): (r: Option<nat>)
    ensures r.Some? ==> uid.Some? && r.value < |users| && users[r.value].uid == uid.value
    ensures r.Some? ==> forall j :: 0 <= j < r.value ==> users[j].uid != uid.value
    ensures r.None? <==> uid.None? || forall j :: 0 <= j < |users| ==> users[j].uid != uid.value
  {
    if uid.None? then None
    else FirstIndex(users, (u: User) => u.uid == uid.value)
  }

  /** The WinnerCategory table: one (category id, nominee) row per category
      that has a winner. */
  function WinnerRows(cats: seq<Category>): set<(nat, Nominee)>
  {
    set i | 0 <= i < |cats| && cats[i].winner.Some? :: (cats[i].id, cats[i].winner.value)
  }

  /** With distinct category ids, a category has at most one winner row. */
  lemma AtMostOneWinner(cats: seq<Category>, id: nat, n1: Nominee, n2: Nominee)
    requires UniqueCategoryIds(cats)
    requires (id, n1) in WinnerRows(cats) && (id, n2) in WinnerRows(cats)
    ensures n1 == n2
  {
    var i :| 0 <= i < |cats| && cats[i].winner.Some? && (cats[i].id, cats[i].winner.value) == (id, n1);
    var j :| 0 <= j < |cats| && cats[j].winner.Some? && (cats[j].id, cats[j].winner.value) == (id, n2);
    assert i == j;
  }

  /** A pick's (category, nominee) pair is a winner row exactly when the
      pick has a nominee and is_correct holds for its category. */
  lemma WinnerRowIffCorrect(e: Entry, cats: seq<Category>, k: nat)
    requires UniqueCategoryIds(cats)
    requires k < |cats| && cats[k].id == e.categoryId
    requires e.nominee.Some?
    ensures (e.categoryId, e.nominee.value) in WinnerRows(cats) <==> e.IsCorrect(cats[k])
  {
    if e.IsCorrect(cats[k]) {
      assert (cats[k].id, cats[k].winner.value) in WinnerRows(cats);
    }
  }
}
