/** calculate_score.c: total the values of a hunt's records per user into a table of at
    most 100 users, sort the table by total with an in-place exchange sort and print it. */
module Score {
  import opened Base
  import opened CText
  import opened Records

  /** The size of the scores array. */
  const MaxUsers: nat := 100

  datatype UserScore = UserScore(name: string, total: int)

  function Min(a: nat, b: nat): nat {
    if a <= b then a else b
  }

  /** The users of rs, each once, in the order of their first record. */
  function Users(rs: seq<Treasure>): (u: seq<string>)
    ensures |u| <= |rs|
  {
    if rs == [] then []
    else
      var p := Users(rs[..|rs| - 1]);
      var u := rs[|rs| - 1].user;
      if u in p then p else p + [u]
  }

  /** The sum of the values of u's records. */
  function Total(rs: seq<Treasure>, u: string): int {
    if rs == [] then 0
    else Total(rs[..|rs| - 1], u) + (if rs[|rs| - 1].user == u then rs[|rs| - 1].value else 0)
  }

  /** The loop invariant of Aggregate, as a relation: `s` is the table the loop holds after
      reading rs, the first 100 users in order of first occurrence, each with the total of
      all their records. Table is the same table as a value; TableIsTableOf connects the two. */
  ghost predicate TableOf(s: seq<UserScore>, rs: seq<Treasure>) {
    |s| == Min(MaxUsers, |Users(rs)|) &&
    forall j :: 0 <= j < |s| ==> s[j] == UserScore(Users(rs)[j], Total(rs, Users(rs)[j]))
  }

  /** The table calculate_score builds from rs: at most 100 entries, one per user and no
      user twice, each the user of some record and holding the sum of that user's values. */
  function Table(rs: seq<Treasure>): (s: seq<UserScore>)
    ensures |s| <= MaxUsers
    ensures forall i, j :: 0 <= i < j < |s| ==> s[i].name != s[j].name
    ensures forall j :: 0 <= j < |s| ==>
      (exists k :: 0 <= k < |rs| && rs[k].user == s[j].name) && s[j].total == Total(rs, s[j].name)
  {
    UsersDistinct(rs);
    UsersMembers(rs);
    var u := Users(rs);
    assert forall j :: 0 <= j < |u| ==> u[j] in u;
    seq(Min(MaxUsers, |u|), j requires 0 <= j < Min(MaxUsers, |u|) => UserScore(u[j], Total(rs, u[j])))
  }

  predicate Descending(s: seq<UserScore>) {
    forall i, j :: 0 <= i < j < |s| ==> s[i].total >= s[j].total
  }

  lemma UsersStep(p: seq<Treasure>, t: Treasure)
    ensures Users(p + [t]) == if t.user in Users(p) then Users(p) else Users(p) + [t.user]
    ensures forall x :: Total(p + [t], x) == Total(p, x) + (if x == t.user then t.value else 0)
  {
    assert (p + [t])[..|p|] == p;
  }

  lemma {:induction false} UsersDistinct(rs: seq<Treasure>)
    ensures forall i, j :: 0 <= i < j < |Users(rs)| ==> Users(rs)[i] != Users(rs)[j]
  {
    if rs != [] {
      UsersDistinct(rs[..|rs| - 1]);
    }
  }

  /** A user is listed exactly when some record is theirs. */
  lemma {:induction false} UsersMembers(rs: seq<Treasure>)
    ensures forall x :: x in Users(rs) <==> exists i :: 0 <= i < |rs| && rs[i].user == x
  {
    if rs != [] {
      var p := rs[..|rs| - 1];
      UsersMembers(p);
      forall x | x in Users(rs)
        ensures exists i :: 0 <= i < |rs| && rs[i].user == x
      {
        if x in Users(p) {
          var i :| 0 <= i < |p| && p[i].user == x;
          assert rs[i] == p[i];
        } else {
          assert rs[|rs| - 1].user == x;
        }
      }
      forall x | exists i :: 0 <= i < |rs| && rs[i].user == x
        ensures x in Users(rs)
      {
        var i :| 0 <= i < |rs| && rs[i].user == x;
        if i < |p| {
          assert p[i] == rs[i];
        }
      }
    }
  }

  /** Positions are fixed at first occurrence: reading more records only appends users. */
  lemma {:induction false} UsersPrefix(rs: seq<Treasure>, k: nat)
    requires k <= |rs|
    ensures Users(rs[..k]) <= Users(rs)
    decreases |rs| - k
  {
    if k < |rs| {
      UsersPrefix(rs, k + 1);
      assert rs[..k + 1][..k] == rs[..k];
    } else {
      assert rs[..k] == rs;
    }
  }

  /** Table order is first-occurrence order: a user whose first record comes after some
      record of another user is listed after that user. */
  lemma UsersOrder(rs: seq<Treasure>, a: nat, b: nat)
    requires a < b < |rs|
    requires forall k :: 0 <= k < b ==> rs[k].user != rs[b].user
    ensures exists i, j :: 0 <= i < j < |Users(rs)| && Users(rs)[i] == rs[a].user && Users(rs)[j] == rs[b].user
  {
    var p, q := rs[..b], rs[..b + 1];
    assert q == p + [rs[b]];
    UsersMembers(p);
    var u := Users(p);
    assert p[a] == rs[a];
    assert rs[a].user in u;
    assert rs[b].user !in u;
    var i :| 0 <= i < |u| && u[i] == rs[a].user;
    UsersStep(p, rs[b]);
    var v := Users(q);
    assert v == u + [rs[b].user];
    UsersPrefix(rs, b + 1);
    var j := |u|;
    assert v[i] == rs[a].user && v[j] == rs[b].user;
    assert v <= Users(rs);
    assert Users(rs)[i] == v[i] && Users(rs)[j] == v[j];
  }

  /** A user without records totals 0. */
  lemma {:induction false} TotalOfAbsent(rs: seq<Treasure>, u: string)
    requires u !in Users(rs)
    ensures Total(rs, u) == 0
  {
    if rs != [] {
      var p := rs[..|rs| - 1];
      assert Users(p) <= Users(rs) by {
        UsersStep(p, rs[|rs| - 1]);
        assert p + [rs[|rs| - 1]] == rs;
      }
      TotalOfAbsent(p, u);
    }
  }

  /** The table is exactly the first 100 users in first-occurrence order with their totals. */
  lemma TableIsTableOf(rs: seq<Treasure>)
    ensures TableOf(Table(rs), rs)
  {
  }

  /** A user with records is missing from the table only when 100 other users came first. */
  lemma TableMissing(rs: seq<Treasure>, i: nat)
    requires i < |rs|
    requires forall j :: 0 <= j < |Table(rs)| ==> Table(rs)[j].name != rs[i].user
    ensures |Table(rs)| == MaxUsers && |Users(rs)| > MaxUsers
  {
    UsersMembers(rs);
    var u := Users(rs);
    assert rs[i].user in u;
    var k :| 0 <= k < |u| && u[k] == rs[i].user;
    TableIsTableOf(rs);
    if k < |Table(rs)| {
      assert false;
    }
  }

  function SumValues(rs: seq<Treasure>): int {
    if rs == [] then 0 else SumValues(rs[..|rs| - 1]) + rs[|rs| - 1].value
  }

  function SumTotals(s: seq<UserScore>): int {
    if s == [] then 0 else SumTotals(s[..|s| - 1]) + s[|s| - 1].total
  }

  /** The totals of the users us, added up. */
  function SumOver(us: seq<string>, rs: seq<Treasure>): int {
    if us == [] then 0 else SumOver(us[..|us| - 1], rs) + Total(rs, us[|us| - 1])
  }

  lemma {:induction false} SumOverStep(us: seq<string>, p: seq<Treasure>, t: Treasure)
    requires forall i, j :: 0 <= i < j < |us| ==> us[i] != us[j]
    ensures SumOver(us, p + [t]) == SumOver(us, p) + (if t.user in us then t.value else 0)
  {
    UsersStep(p, t);
    if us != [] {
      var init := us[..|us| - 1];
      SumOverStep(init, p, t);
      assert us == init + [us[|us| - 1]];
    }
  }

  /** Over all users the totals add up to the sum of all values. */
  lemma {:induction false} SumOverUsers(rs: seq<Treasure>)
    ensures SumOver(Users(rs), rs) == SumValues(rs)
  {
    if rs != [] {
      var p := rs[..|rs| - 1];
      var t := rs[|rs| - 1];
      assert rs == p + [t];
      SumOverUsers(p);
      UsersStep(p, t);
      UsersDistinct(p);
      SumOverStep(Users(p), p, t);
      if t.user !in Users(p) {
        TotalOfAbsent(p, t.user);
        assert (Users(p) + [t.user])[..|Users(p)|] == Users(p);
      }
    }
  }

  lemma {:induction false} SumTotalsOf(s: seq<UserScore>, us: seq<string>, rs: seq<Treasure>)
    requires |s| == |us| && forall j :: 0 <= j < |s| ==> s[j].total == Total(rs, us[j])
    ensures SumTotals(s) == SumOver(us, rs)
  {
    if s != [] {
      SumTotalsOf(s[..|s| - 1], us[..|us| - 1], rs);
    }
  }

  /** With at most 100 users no record is ignored: the table's totals add up to the sum of
      all values in the file. */
  lemma TableConservesValue(rs: seq<Treasure>)
    requires |Users(rs)| <= MaxUsers
    ensures SumTotals(Table(rs)) == SumValues(rs)
  {
    SumTotalsOf(Table(rs), Users(rs), rs);
    SumOverUsers(rs);
  }

  /** The loop body when the user is already in the table: add the value to their total. */
  lemma TallyKnown(s: seq<UserScore>, p: seq<Treasure>, t: Treasure, i: nat)
    requires TableOf(s, p) && i < |s| && s[i].name == t.user
    ensures TableOf(s[i := UserScore(s[i].name, s[i].total + t.value)], p + [t])
  {
    UsersStep(p, t);
    UsersDistinct(p);
    assert t.user in Users(p);
  }

  /** The loop body when the user is not in the table: a new entry while there is room,
      otherwise the record is ignored. */
  lemma TallyNew(s: seq<UserScore>, p: seq<Treasure>, t: Treasure)
    requires TableOf(s, p) && forall j :: 0 <= j < |s| ==> s[j].name != t.user
    ensures TableOf(if |s| < MaxUsers then s + [UserScore(t.user, t.value)] else s, p + [t])
  {
    UsersStep(p, t);
    if |s| < MaxUsers {
      assert |s| == |Users(p)|;
      assert t.user !in Users(p) by {
        forall j | 0 <= j < |Users(p)|
          ensures Users(p)[j] != t.user
        {
          assert s[j].name == Users(p)[j];
        }
      }
      TotalOfAbsent(p, t.user);
    }
  }

  /** The aggregation loop: read whole records until a short read; find the record's user
      among the first n entries and add to their total, or start a new entry while fewer
      than 100 users are tracked. */
  method Aggregate(f: RecordFile) returns (scores: array<UserScore>, n: nat)
    ensures fresh(scores) && scores.Length == MaxUsers && n <= MaxUsers
    ensures scores[..n] == Table(f.records)
  {
    scores := new UserScore[MaxUsers](_ => UserScore("", 0));
    n := 0;
    var k := 0;
    while true
      invariant k <= |f.records| && n <= MaxUsers
      invariant TableOf(scores[..n], f.records[..k])
      decreases |f.records| - k
    {
      var r := ReadAt(f, k);
      if r.None? {
        break;
      }
      var t := r.value;
      assert f.records[..k + 1] == f.records[..k] + [t];
      ghost var before := scores[..n];
      var found := false;
      var i := 0;
      while i < n
        invariant i <= n && scores[..n] == before
        invariant forall j :: 0 <= j < i ==> scores[j].name != t.user
      {
        if scores[i].name == t.user {
          scores[i] := UserScore(scores[i].name, scores[i].total + t.value);
          assert scores[..n] == before[i := UserScore(before[i].name, before[i].total + t.value)];
          TallyKnown(before, f.records[..k], t, i);
          found := true;
          break;
        }
        i := i + 1;
      }
      if !found {
        TallyNew(before, f.records[..k], t);
        if n < MaxUsers {
          scores[n] := UserScore(t.user, t.value);
          n := n + 1;
          assert scores[..n] == before + [UserScore(t.user, t.value)];
        }
      }
      k := k + 1;
    }
    assert f.records[..k] == f.records;
    assert scores[..n] == Table(f.records);
  }

  /** Exchanging two entries of the segment [i, n) permutes the segment and leaves the rest. */
  lemma SwapPermutes(s: seq<UserScore>, i: nat, j: nat, n: nat)
    requires i < j < n <= |s|
    ensures multiset(s[i := s[j]][j := s[i]][i..n]) == multiset(s[i..n])
    ensures s[i := s[j]][j := s[i]][..i] == s[..i]
    ensures s[i := s[j]][j := s[i]][n..] == s[n..]
  {
    var t := s[i := s[j]][j := s[i]];
    assert t[i..n] == s[i..n][0 := s[j]][j - i := s[i]];
  }

  /** A bound on every total survives a permutation. */
  lemma BoundPermuted(s: seq<UserScore>, t: seq<UserScore>, b: int)
    requires multiset(s) == multiset(t)
    requires forall k :: 0 <= k < |s| ==> s[k].total <= b
    ensures forall k :: 0 <= k < |t| ==> t[k].total <= b
  {
    forall k | 0 <= k < |t|
      ensures t[k].total <= b
    {
      assert t[k] in multiset(t);
      assert t[k] in s;
      var m :| 0 <= m < |s| && s[m] == t[k];
    }
  }

  /** The inner loop of the exchange sort: swap into position i every later entry with a
      larger total, so that position i ends up holding a largest total of [i, n). */
  method PlaceLargest(a: array<UserScore>, i: nat, n: nat)
    requires i < n <= a.Length
    modifies a
    ensures forall q :: i < q < n ==> a[i].total >= a[q].total
    ensures multiset(a[i..n]) == old(multiset(a[i..n]))
    ensures a[..i] == old(a[..i]) && a[n..] == old(a[n..])
  {
    var j := i + 1;
    while j < n
      invariant i < j <= n
      invariant forall q :: i < q < j ==> a[i].total >= a[q].total
      invariant multiset(a[i..n]) == old(multiset(a[i..n]))
      invariant a[..i] == old(a[..i]) && a[n..] == old(a[n..])
    {
      if a[i].total < a[j].total {
        ghost var was := a[..];
        assert was[i..n] == a[i..n] && was[..i] == a[..i] && was[n..] == a[n..];
        SwapPermutes(was, i, j, n);
        a[i], a[j] := a[j], a[i];
        ghost var now := a[..];
        assert now == was[i := was[j]][j := was[i]];
        assert now[i..n] == a[i..n] && now[..i] == a[..i] && now[n..] == a[n..];
      }
      j := j + 1;
    }
  }

  /** The exchange sort: for each position, swap in every later entry with a larger total. */
  method SortDescending(a: array<UserScore>, n: nat)
    requires n <= a.Length
    modifies a
    ensures Descending(a[..n])
    ensures multiset(a[..n]) == old(multiset(a[..n]))
    ensures a[n..] == old(a[n..])
  {
    var i := 0;
    while i + 1 < n
      invariant i <= n
      invariant forall p, q :: 0 <= p < q < i ==> a[p].total >= a[q].total
      invariant forall p, q :: 0 <= p < i <= q < n ==> a[p].total >= a[q].total
      invariant multiset(a[..n]) == old(multiset(a[..n]))
      invariant a[n..] == old(a[n..])
    {
      ghost var before := a[..];
      assert before[..n] == before[..i] + before[i..n];
      PlaceLargest(a, i, n);
      assert a[..n] == a[..i] + a[i..n];
      forall p | 0 <= p < i
        ensures forall q :: i <= q < n ==> a[p].total >= a[q].total
      {
        assert a[p] == before[p];
        assert forall k :: 0 <= k < n - i ==> before[i..n][k] == before[i + k];
        BoundPermuted(before[i..n], a[i..n], a[p].total);
        assert forall q :: i <= q < n ==> a[q] == a[i..n][q - i];
      }
      i := i + 1;
    }
  }

  function ScoreHeader(hunt: string): string {
    "=== Scores for Hunt " + hunt + " ===\n"
  }

  function ScoreLine(e: UserScore): string {
    e.name + ": " + Decimal(e.total) + " points\n"
  }

  function ScoreLines(s: seq<UserScore>): string {
    if s == [] then "" else ScoreLines(s[..|s| - 1]) + ScoreLine(s[|s| - 1])
  }

  /** What the program prints on standard output for a hunt. */
  function ScoreReport(hunt: string, ranking: seq<UserScore>): string {
    ScoreHeader(hunt) + ScoreLines(ranking)
  }

  /** The printing loop: the header, then one line per entry of the sorted table. */
  method PrintScores(hunt: string, ranking: seq<UserScore>) returns (out: string)
    ensures out == ScoreReport(hunt, ranking)
  {
    var lines := "";
    var i := 0;
    while i < |ranking|
      invariant i <= |ranking|
      invariant lines == ScoreLines(ranking[..i])
    {
      assert ranking[..i + 1][..i] == ranking[..i];
      lines := lines + ScoreLine(ranking[i]);
      i := i + 1;
    }
    assert ranking[..i] == ranking;
    out := ScoreHeader(hunt) + lines;
  }

  /** main: argv[0] is the program name and argv[1] the hunt. Exit status 1 for a wrong
      argument count or a record file that cannot be opened; otherwise 0, with the ranking
      printed: the score table sorted by descending total. */
  method ScoreMain(args: seq<string>, data: map<string, RecordFile>)
    returns (code: int, out: string, ranking: seq<UserScore>)
    ensures code == (if |args| != 2 || args[1] !in data then 1 else 0)
    ensures code == 1 ==> out == "" && ranking == []
    ensures code == 0 ==>
      Descending(ranking) && multiset(ranking) == multiset(Table(data[args[1]].records)) &&
      out == ScoreReport(args[1], ranking)
  {
    if |args| != 2 || args[1] !in data {
      return 1, "", [];
    }
    var scores, n := Aggregate(data[args[1]]);
    SortDescending(scores, n);
    ranking := scores[..n];
    out := PrintScores(args[1], ranking);
    code := 0;
  }
}
