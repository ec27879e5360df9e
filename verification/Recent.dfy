/** Each user's recently visited repositories: a bounded table that answers as if it kept the whole history. */
module Recent {

  const MAX_ROWS: nat := 100

  datatype Row = Row(id: nat, user: int, repo: string, reference: string, action: string, visitedAt: int)

  datatype Visit = Visit(user: int, repo: string, reference: string, action: string, at: int)

  function VisitOf(r: Row): Visit {
    Visit(r.user, r.repo, r.reference, r.action, r.visitedAt)
  }

  /** The order of listings, oldest first: by time, then by row id. */
  predicate Older(a: Row, b: Row) {
    a.visitedAt < b.visitedAt || (a.visitedAt == b.visitedAt && a.id < b.id)
  }

  // ---- The statements ----

  function DropRepo(rows: seq<Row>, user: int, repo: string): seq<Row> {
    if rows == [] then [] else
      var last := rows[|rows| - 1];
      var before := DropRepo(rows[..|rows| - 1], user, repo);
      if last.user == user && last.repo == repo then before else before + [last]
  }

  /** How many rows of the same user come after `r` in the order of listings. */
  function NewerCount(rows: seq<Row>, r: Row): nat {
    if rows == [] then 0 else
      var last := rows[|rows| - 1];
      NewerCount(rows[..|rows| - 1], r) + (if last.user == r.user && Older(r, last) then 1 else 0)
  }

  /** The rows among `some` that are another user's, or belong to the newest of all. */
  function KeepNewest(some: seq<Row>, all: seq<Row>, user: int): seq<Row> {
    if some == [] then [] else
      var last := some[|some| - 1];
      var before := KeepNewest(some[..|some| - 1], all, user);
      if last.user != user || NewerCount(all, last) < MAX_ROWS then before + [last] else before
  }

  function Trim(rows: seq<Row>, user: int): seq<Row> {
    KeepNewest(rows, rows, user)
  }

  function InsertNewest(list: seq<Row>, r: Row): seq<Row> {
    if list == [] || Older(list[0], r) then [r] + list else [list[0]] + InsertNewest(list[1..], r)
  }

  /** A user's rows, newest first. */
  function Newest(rows: seq<Row>, user: int): seq<Row> {
    if rows == [] then [] else
      var last := rows[|rows| - 1];
      var before := Newest(rows[..|rows| - 1], user);
      if last.user == user then InsertNewest(before, last) else before
  }

  function Take<T>(s: seq<T>, n: nat): seq<T> {
    if |s| <= n then s else s[..n]
  }

  /** How many rows a listing gives: as many as asked for, within bounds. */
  function PageSize(limit: int): nat {
    if limit <= 0 || limit > 200 then 50 else limit
  }

  /** The table once a visit has been added. */
  function Added(rows: seq<Row>, id: nat, v: Visit): seq<Row> {
    Trim(DropRepo(rows, v.user, v.repo) + [Row(id, v.user, v.repo, v.reference, v.action, v.at)], v.user)
  }

  class RecentTable {
    var rows: seq<Row>
    var nextId: nat

    constructor ()
      ensures rows == [] && nextId == 0
    {
      rows, nextId := [], 0;
    }

    /** Deletes the repository's old row, inserts the new one, trims; a failed statement ends it there. */
    method AddRecent(v: Visit) returns (ok: bool)
      modifies this
      ensures ok ==> rows == Added(old(rows), old(nextId), v) && nextId == old(nextId) + 1
      ensures !ok ==>
                || rows == old(rows)
                || rows == DropRepo(old(rows), v.user, v.repo)
                || rows == DropRepo(old(rows), v.user, v.repo) +
                    [Row(old(nextId), v.user, v.repo, v.reference, v.action, v.at)]
      ensures nextId >= old(nextId)
    {
      ok := *;
      if !ok {
        return;
      }
      rows := DropRepo(rows, v.user, v.repo);
      ok := *;
      if !ok {
        return;
      }
      rows := rows + [Row(nextId, v.user, v.repo, v.reference, v.action, v.at)];
      nextId := nextId + 1;
      ok := *;
      if ok {
        rows := Trim(rows, v.user);
      }
    }

    method ListRecent(user: int, limit: int) returns (out: seq<Row>)
      ensures out == Take(Newest(rows, user), PageSize(limit))
    {
      out := [];
      for i := 0 to |rows|
        invariant out == Newest(rows[..i], user)
      {
        assert rows[..i + 1][..i] == rows[..i];
        if rows[i].user == user {
          out := InsertNewest(out, rows[i]);
        }
      }
      assert rows[..|rows|] == rows;
      out := Take(out, PageSize(limit));
    }
  }

  // ---- The whole history ----

  function Without(list: seq<Visit>, repo: string): seq<Visit> {
    if list == [] then []
    else if list[0].repo == repo then Without(list[1..], repo)
    else [list[0]] + Without(list[1..], repo)
  }

  /** A user's distinct repositories by last visit, newest first, each as it was last visited. */
  function History(visits: seq<Visit>, user: int): seq<Visit> {
    if visits == [] then [] else
      var last := visits[|visits| - 1];
      var before := History(visits[..|visits| - 1], user);
      if last.user == user then [last] + Without(before, last.repo) else before
  }

  /** `visits[k]` is the user's last visit to its repository. */
  ghost predicate LastVisit(visits: seq<Visit>, user: int, k: nat) {
    k < |visits| && visits[k].user == user && forall j :: k < j < |visits| ==>
        !(visits[j].user == user && visits[j].repo == visits[k].repo)
  }

  predicate DistinctRepos(list: seq<Visit>) {
    forall i, j :: 0 <= i < j < |list| ==> list[i].repo != list[j].repo
  }

  lemma {:induction false} WithoutMeans(list: seq<Visit>, repo: string)
    requires DistinctRepos(list)
    ensures DistinctRepos(Without(list, repo))
    ensures forall v :: v in Without(list, repo) <==> v in list && v.repo != repo
    decreases |list|
  {
    if list != [] {
      WithoutMeans(list[1..], repo);
      assert list == [list[0]] + list[1..];
    }
  }

  /** What the history lists: each repository once, and exactly the user's last visits. */
  lemma {:induction false} HistoryMeans(visits: seq<Visit>, user: int)
    ensures DistinctRepos(History(visits, user))
    ensures forall v :: v in History(visits, user) <==> exists k: nat :: LastVisit(visits, user, k) && visits[k] == v
  {
    if visits != [] {
      var init, last := visits[..|visits| - 1], visits[|visits| - 1];
      assert visits == init + [last];
      HistoryMeans(init, user);
      WithoutMeans(History(init, user), last.repo);
      forall v
        ensures v in History(visits, user) <==> exists k: nat :: LastVisit(visits, user, k) && visits[k] == v
      {
        if k: nat :| LastVisit(visits, user, k) && visits[k] == v {
          assert k < |init| ==> LastVisit(init, user, k);
        }
        if v in History(visits, user) {
          if v == last && last.user == user {
            assert LastVisit(visits, user, |init|);
          } else {
            var k: nat :| LastVisit(init, user, k) && init[k] == v;
            assert LastVisit(visits, user, k) && visits[k] == v;
          }
        }
      }
    }
  }

  ghost predicate ClockAdvances(visits: seq<Visit>) {
    forall i, j :: 0 <= i < j < |visits| ==> visits[i].at <= visits[j].at
  }

  predicate NewestFirst(list: seq<Visit>) {
    forall i, j :: 0 <= i < j < |list| ==> list[i].at >= list[j].at
  }

  lemma {:induction false} WithoutNewestFirst(list: seq<Visit>, repo: string)
    requires NewestFirst(list)
    ensures NewestFirst(Without(list, repo))
    ensures forall v :: v in Without(list, repo) ==> v in list
    decreases |list|
  {
    if list != [] {
      WithoutNewestFirst(list[1..], repo);
      assert forall v :: v in list[1..] ==> v.at <= list[0].at;
    }
  }

  /** While the clock does not go back, the history is listed newest first. */
  lemma {:induction false} HistoryNewestFirst(visits: seq<Visit>, user: int)
    requires ClockAdvances(visits)
    ensures NewestFirst(History(visits, user))
    ensures visits != [] ==> forall v :: v in History(visits, user) ==> v.at <= visits[|visits| - 1].at
  {
    if visits != [] {
      var init, last := visits[..|visits| - 1], visits[|visits| - 1];
      HistoryNewestFirst(init, user);
      WithoutNewestFirst(History(init, user), last.repo);
      assert forall v :: v in History(init, user) ==> v.at <= last.at;
    }
  }

  // ---- Refinement ----

  /** Rows are stored in the order of listings, as they are while the clock does not go back. */
  predicate InOrder(rows: seq<Row>) {
    forall i, j :: 0 <= i < j < |rows| ==> Older(rows[i], rows[j])
  }

  /** A user's rows, last stored first. */
  function LastFirst(rows: seq<Row>, user: int): seq<Row> {
    if rows == [] then [] else
      var last := rows[|rows| - 1];
      var before := LastFirst(rows[..|rows| - 1], user);
      if last.user == user then [last] + before else before
  }

  lemma AppendStored(rows: seq<Row>, r: Row, user: int)
    ensures LastFirst(rows + [r], user) == if r.user == user then [r] + LastFirst(rows, user) else LastFirst(rows, user)
  {}

  lemma {:induction false} NewestIsLastFirst(rows: seq<Row>, user: int)
    requires InOrder(rows)
    ensures Newest(rows, user) == LastFirst(rows, user)
    ensures forall r :: r in LastFirst(rows, user) ==> r in rows
  {
    if rows != [] {
      var init, last := rows[..|rows| - 1], rows[|rows| - 1];
      NewestIsLastFirst(init, user);
      if LastFirst(init, user) != [] {
        assert LastFirst(init, user)[0] in init;
      }
    }
  }

  /** Of rows in order, those newer than one of them are the user's rows stored after it. */
  lemma {:induction false} NewerAreLater(rows: seq<Row>, i: nat)
    requires InOrder(rows) && i < |rows|
    ensures NewerCount(rows, rows[i]) == |LastFirst(rows[i + 1..], rows[i].user)|
    decreases |rows|
  {
    var init, last := rows[..|rows| - 1], rows[|rows| - 1];
    if i < |rows| - 1 {
      NewerAreLater(init, i);
      assert init[i + 1..] == rows[i + 1..][..|rows| - i - 2];
      assert rows[i + 1..][|rows| - i - 2] == last;
    } else {
      NoneNewer(init, last);
    }
  }

  lemma {:induction false} NoneNewer(rows: seq<Row>, r: Row)
    requires forall s :: s in rows ==> !Older(r, s)
    ensures NewerCount(rows, r) == 0
  {
    if rows != [] {
      NoneNewer(rows[..|rows| - 1], r);
    }
  }

  lemma {:induction false} FirstStored(rows: seq<Row>, user: int)
    requires rows != []
    ensures LastFirst(rows, user) == if rows[0].user == user then LastFirst(rows[1..], user) + [rows[0]]
              else LastFirst(rows[1..], user)
    decreases |rows|
  {
    if |rows| > 1 {
      var init := rows[..|rows| - 1];
      FirstStored(init, user);
      assert init[1..] == rows[1..][..|rows| - 2];
    }
  }

  function Room(later: seq<Row>, user: int): nat {
    if |LastFirst(later, user)| < MAX_ROWS then MAX_ROWS - |LastFirst(later, user)| else 0
  }

  lemma TakeFirst<T>(x: T, rest: seq<T>, n: nat)
    ensures Take([x] + rest, n) == if n > 0 then [x] + Take(rest, n - 1) else []
  {}

  /** Trimming a prefix keeps what the rows stored after it leave room for. */
  lemma {:induction false} KeepsTheNewest(rows: seq<Row>, n: nat, user: int)
    requires InOrder(rows) && n <= |rows|
    ensures LastFirst(KeepNewest(rows[..n], rows, user), user) ==
              Take(LastFirst(rows[..n], user), Room(rows[n..], user))
    decreases n
  {
    if n > 0 {
      var last, some := rows[n - 1], rows[..n];
      assert some[..n - 1] == rows[..n - 1];
      KeepsTheNewest(rows, n - 1, user);
      FirstStored(rows[n - 1..], user);
      assert rows[n - 1..][1..] == rows[n..];
      AppendStored(KeepNewest(rows[..n - 1], rows, user), last, user);
      assert LastFirst(some, user) == if last.user == user then [last] + LastFirst(rows[..n - 1], user)
                else LastFirst(rows[..n - 1], user);
      if last.user == user {
        NewerAreLater(rows, n - 1);
        TakeFirst(last, LastFirst(rows[..n - 1], user), Room(rows[n..], user));
      }
    }
  }

  lemma {:induction false} KeepsOthers(some: seq<Row>, all: seq<Row>, user: int, other: int)
    requires other != user
    ensures LastFirst(KeepNewest(some, all, user), other) == LastFirst(some, other)
  {
    if some != [] {
      var init, last := some[..|some| - 1], some[|some| - 1];
      KeepsOthers(init, all, user, other);
      AppendStored(KeepNewest(init, all, user), last, other);
    }
  }

  /** Trimming leaves the user's newest rows, and other users' rows alone. */
  lemma TrimKeeps(rows: seq<Row>, user: int, other: int)
    requires InOrder(rows)
    ensures LastFirst(Trim(rows, user), other) == if other == user then Take(LastFirst(rows, user), MAX_ROWS)
              else LastFirst(rows, other)
  {
    if other == user {
      KeepsTheNewest(rows, |rows|, user);
      assert rows[..|rows|] == rows && rows[|rows|..] == [];
    } else {
      KeepsOthers(rows, rows, user, other);
    }
  }

  /** Deleting rows keeps the others in order. */
  lemma {:induction false} KeepInOrder(some: seq<Row>, all: seq<Row>, user: int)
    requires InOrder(some)
    ensures InOrder(KeepNewest(some, all, user))
    ensures forall r :: r in KeepNewest(some, all, user) ==> r in some
  {
    if some != [] {
      var init, last := some[..|some| - 1], some[|some| - 1];
      KeepInOrder(init, all, user);
      assert some == init + [last];
      assert forall r :: r in init ==> Older(r, last);
      assert forall i :: 0 <= i < |KeepNewest(init, all, user)| ==> KeepNewest(init, all, user)[i] in init;
    }
  }

  lemma {:induction false} DropInOrder(rows: seq<Row>, user: int, repo: string)
    requires InOrder(rows)
    ensures InOrder(DropRepo(rows, user, repo))
    ensures forall r :: r in DropRepo(rows, user, repo) ==> r in rows
  {
    if rows != [] {
      var init, last := rows[..|rows| - 1], rows[|rows| - 1];
      DropInOrder(init, user, repo);
      assert rows == init + [last];
      assert forall r :: r in init ==> Older(r, last);
      assert forall i :: 0 <= i < |DropRepo(init, user, repo)| ==> DropRepo(init, user, repo)[i] in init;
    }
  }

  function Visits(list: seq<Row>): seq<Visit> {
    if list == [] then [] else [VisitOf(list[0])] + Visits(list[1..])
  }

  lemma {:induction false} DropIsWithout(rows: seq<Row>, user: int, repo: string, other: int)
    ensures Visits(LastFirst(DropRepo(rows, user, repo), other))
         == if other == user then Without(Visits(LastFirst(rows, user)), repo) else Visits(LastFirst(rows, other))
  {
    if rows != [] {
      var init, last := rows[..|rows| - 1], rows[|rows| - 1];
      DropIsWithout(init, user, repo, other);
      AppendStored(DropRepo(init, user, repo), last, other);
    }
  }

  lemma {:induction false} VisitsTake(list: seq<Row>, n: nat)
    ensures |Visits(list)| == |list| && Visits(Take(list, n)) == Take(Visits(list), n)
  {
    if list != [] && n > 0 {
      VisitsTake(list[1..], n - 1);
      assert |list| > n ==> list[..n][1..] == list[1..][..n - 1];
    } else if list != [] {
      VisitsTake(list[1..], 0);
    }
  }

  lemma {:induction false} WithoutConcat(a: seq<Visit>, b: seq<Visit>, repo: string)
    ensures Without(a + b, repo) == Without(a, repo) + Without(b, repo)
    decreases |a|
  {
    if a == [] {
      assert a + b == b;
    } else {
      WithoutConcat(a[1..], b, repo);
      assert (a + b)[1..] == a[1..] + b;
    }
  }

  lemma {:induction false} WithoutAtMostOne(list: seq<Visit>, repo: string)
    requires DistinctRepos(list)
    ensures |Without(list, repo)| >= |list| - 1
    ensures (forall v :: v in list ==> v.repo != repo) ==> Without(list, repo) == list
    decreases |list|
  {
    if list != [] {
      WithoutAtMostOne(list[1..], repo);
      assert list == [list[0]] + list[1..];
    }
  }

  /** Nothing beyond the bound can come back: trimming before a visit is as good as trimming after it. */
  lemma TrimmedIsEnough(all: seq<Visit>, v: Visit)
    requires DistinctRepos(all)
    ensures Take([v] + Without(Take(all, MAX_ROWS), v.repo), MAX_ROWS) == Take([v] + Without(all, v.repo), MAX_ROWS)
  {
    if |all| > MAX_ROWS {
      var kept, rest := all[..MAX_ROWS], all[MAX_ROWS..];
      assert all == kept + rest;
      WithoutConcat(kept, rest, v.repo);
      WithoutAtMostOne(kept, v.repo);
      var a, b := [v] + Without(kept, v.repo), Without(rest, v.repo);
      assert [v] + Without(all, v.repo) == a + b;
      assert |a| >= MAX_ROWS;
      assert (a + b)[..MAX_ROWS] == a[..MAX_ROWS];
      assert a[..|a|] == a;
    }
  }

  /** The table after a sequence of visits, starting empty. */
  function TableAfter(visits: seq<Visit>): seq<Row> {
    if visits == [] then [] else Added(TableAfter(visits[..|visits| - 1]), |visits| - 1, visits[|visits| - 1])
  }

  ghost predicate AllBefore(rows: seq<Row>, id: nat, at: int) {
    forall r :: r in rows ==> r.id < id && r.visitedAt <= at
  }

  lemma AddedInOrder(rows: seq<Row>, id: nat, v: Visit)
    requires InOrder(rows) && AllBefore(rows, id, v.at)
    ensures InOrder(Added(rows, id, v)) && AllBefore(Added(rows, id, v), id + 1, v.at)
    ensures InOrder(DropRepo(rows, v.user, v.repo) + [Row(id, v.user, v.repo, v.reference, v.action, v.at)])
  {
    DropInOrder(rows, v.user, v.repo);
    var all := DropRepo(rows, v.user, v.repo) + [Row(id, v.user, v.repo, v.reference, v.action, v.at)];
    KeepInOrder(all, all, v.user);
  }

  /** One visit does to a user's rows what it does to the bounded history. */
  lemma AddedRefines(rows: seq<Row>, id: nat, v: Visit, user: int)
    requires InOrder(rows) && AllBefore(rows, id, v.at)
    ensures Visits(LastFirst(Added(rows, id, v), user))
         == if user == v.user then Take([v] + Without(Visits(LastFirst(rows, user)), v.repo), MAX_ROWS)
             else Visits(LastFirst(rows, user))
  {
    var kept, r := DropRepo(rows, v.user, v.repo), Row(id, v.user, v.repo, v.reference, v.action, v.at);
    AddedInOrder(rows, id, v);
    TrimKeeps(kept + [r], v.user, user);
    AppendStored(kept, r, user);
    DropIsWithout(rows, v.user, v.repo, user);
    VisitsTake(LastFirst(kept + [r], user), MAX_ROWS);
    assert VisitOf(r) == v;
  }

  /** While the clock does not go back, a user's rows are the newest hundred entries of that user's whole history. */
  lemma {:induction false} RefinesHistory(visits: seq<Visit>, user: int)
    requires ClockAdvances(visits)
    ensures InOrder(TableAfter(visits))
    ensures visits != [] ==> AllBefore(TableAfter(visits), |visits|, visits[|visits| - 1].at)
    ensures Visits(Newest(TableAfter(visits), user)) == Take(History(visits, user), 100)
  {
    if visits != [] {
      var init, last := visits[..|visits| - 1], visits[|visits| - 1];
      RefinesHistory(init, user);
      var rows := TableAfter(init);
      assert AllBefore(rows, |init|, last.at);
      AddedInOrder(rows, |init|, last);
      AddedRefines(rows, |init|, last, user);
      NewestIsLastFirst(rows, user);
      NewestIsLastFirst(TableAfter(visits), user);
      HistoryMeans(init, user);
      TrimmedIsEnough(History(init, user), last);
    }
  }

  lemma TakeTwice<T>(s: seq<T>, m: nat, n: nat)
    ensures Take(Take(s, m), n) == Take(s, if m <= n then m else n)
  {}

  /** What a listing shows of the history: as much as was asked for, up to a hundred, and fifty if out of range. */
  lemma ListingShows(visits: seq<Visit>, user: int, limit: int)
    requires ClockAdvances(visits)
    ensures Visits(Take(Newest(TableAfter(visits), user), PageSize(limit))) ==
              Take(History(visits, user), if limit <= 0 then 50 else if limit <= 100 then limit
                                          else if limit <= 200 then 100 else 50)
  {
    RefinesHistory(visits, user);
    VisitsTake(Newest(TableAfter(visits), user), PageSize(limit));
    TakeTwice(History(visits, user), 100, PageSize(limit));
  }
}
