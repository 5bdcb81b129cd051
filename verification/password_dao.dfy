/** The `passwords` table behind `PasswordDao`, as a value: the rows, and the
    largest id the table has ever handed out (SQLite's `sqlite_sequence` entry
    for an AUTOINCREMENT key). Each DAO call is a function of a snapshot; the
    `PasswordRepositoryImpl` delegations that map between rows and domain
    records sit at the end. */
module PasswordDao {
  import opened Wrappers
  import opened Text
  import opened DomainModel
  import opened PasswordMapper

  datatype Store = Store(rows: seq<PasswordEntity>, lastId: int)

  const EmptyStore := Store([], 0)

  /** No two rows share a primary key. */
  predicate UniqueIds(rs: seq<PasswordEntity>) {
    forall i, j :: 0 <= i < j < |rs| ==> rs[i].id != rs[j].id
  }

  /** The largest id among the rows, 0 for no rows. */
  function MaxId(rs: seq<PasswordEntity>): (m: int)
    ensures forall i :: 0 <= i < |rs| ==> rs[i].id <= m
    decreases |rs|
  {
    if |rs| == 0 then 0
    else
      var m := MaxId(rs[1..]);
      if rs[0].id > m then rs[0].id else m
  }

  /** The key AUTOINCREMENT assigns: one more than any key the table has used. */
  function NextId(s: Store): (id: int)
    ensures id > s.lastId
    ensures forall i :: 0 <= i < |s.rows| ==> s.rows[i].id < id
  {
    (if s.lastId > MaxId(s.rows) then s.lastId else MaxId(s.rows)) + 1
  }

  /** The key an inserted row ends up with: Room binds an id of 0 as NULL, so
      the table numbers it; any other id is stored as given. */
  function AssignedId(s: Store, e: PasswordEntity): (id: int)
    ensures e.id != 0 ==> id == e.id
    ensures e.id == 0 ==> id > s.lastId && forall i :: 0 <= i < |s.rows| ==> s.rows[i].id != id
  {
    if e.id == 0 then NextId(s) else e.id
  }

  /** The filter that drops the row under key `id`. */
  function KeyOtherThan(id: int): PasswordEntity -> bool {
    (x: PasswordEntity) => x.id != id
  }

  /** The rows that `keep` accepts, in order. */
  function Select(rs: seq<PasswordEntity>, keep: PasswordEntity -> bool): (r: seq<PasswordEntity>)
    ensures forall x :: multiset(r)[x] == if keep(x) then multiset(rs)[x] else 0
    ensures forall x :: x in r <==> x in rs && keep(x)
    ensures |r| <= |rs|
    decreases |rs|
  {
    if |rs| == 0 then []
    else
      assert rs == [rs[0]] + rs[1..];
      (if keep(rs[0]) then [rs[0]] else []) + Select(rs[1..], keep)
  }

  lemma SelectKeepsUniqueIds(rs: seq<PasswordEntity>, keep: PasswordEntity -> bool)
    requires UniqueIds(rs)
    ensures UniqueIds(Select(rs, keep))
    decreases |rs|
  {
    if |rs| > 0 {
      SelectKeepsUniqueIds(rs[1..], keep);
      var t := Select(rs[1..], keep);
      forall i | 0 <= i < |t| ensures t[i].id != rs[0].id {
        assert t[i] in rs[1..];
        var k :| 1 <= k < |rs| && rs[k] == t[i];
      }
    }
  }

  /** A filter that accepts every row drops nothing. */
  lemma {:induction false} SelectAll(rs: seq<PasswordEntity>, keep: PasswordEntity -> bool)
    requires forall i :: 0 <= i < |rs| ==> keep(rs[i])
    ensures Select(rs, keep) == rs
    decreases |rs|
  {
    if |rs| > 0 {
      var t := rs[1..];
      assert forall i :: 0 <= i < |t| ==> keep(t[i]) by {
        forall i | 0 <= i < |t| ensures keep(t[i]) {
          assert t[i] == rs[i + 1];
        }
      }
      SelectAll(t, keep);
      assert keep(rs[0]);
      assert [rs[0]] + t == rs;
    }
  }

  /** Dropping the rows with a key no row has drops nothing. */
  lemma SelectOfFreshId(rs: seq<PasswordEntity>, id: int)
    requires forall i :: 0 <= i < |rs| ==> rs[i].id != id
    ensures Select(rs, KeyOtherThan(id)) == rs
  {
    SelectAll(rs, KeyOtherThan(id));
  }

  lemma AppendFreshKeepsUniqueIds(rs: seq<PasswordEntity>, y: PasswordEntity)
    requires UniqueIds(rs)
    requires forall i :: 0 <= i < |rs| ==> rs[i].id != y.id
    ensures UniqueIds(rs + [y])
  {
  }

  /** `@Insert(onConflict = REPLACE)`: the row with the assigned key, if any,
      is removed, and the new row is stored under that key. The sequence entry
      never goes down. */
  function Insert(s: Store, e: PasswordEntity): (r: Store)
    ensures var id := AssignedId(s, e);
      && e.(id := id) in r.rows
      && r.lastId >= s.lastId && r.lastId >= id
    ensures UniqueIds(s.rows) ==> UniqueIds(r.rows)
    ensures e.id == 0 ==> r.rows == s.rows + [e.(id := AssignedId(s, e))]
  {
    var id := AssignedId(s, e);
    var kept := Select(s.rows, KeyOtherThan(id));
    assert UniqueIds(s.rows) ==> UniqueIds(kept + [e.(id := id)]) by {
      if UniqueIds(s.rows) {
        SelectKeepsUniqueIds(s.rows, KeyOtherThan(id));
        assert forall i :: 0 <= i < |kept| ==> kept[i] in kept;
        AppendFreshKeepsUniqueIds(kept, e.(id := id));
      }
    }
    assert e.id == 0 ==> kept == s.rows by {
      if e.id == 0 {
        SelectOfFreshId(s.rows, id);
      }
    }
    Store(kept + [e.(id := id)], if id > s.lastId then id else s.lastId)
  }

  /** The inserted row is the only one under its key, and every row under
      another key is stored after the insert exactly when it was before. */
  lemma InsertReplacesKey(s: Store, e: PasswordEntity)
    ensures var id := AssignedId(s, e); var r := Insert(s, e);
      && (forall x :: x in r.rows && x.id == id ==> x == e.(id := id))
      && (forall x: PasswordEntity :: x.id != id ==> (x in r.rows <==> x in s.rows))
  {
    var id := AssignedId(s, e);
    var kept := Select(s.rows, KeyOtherThan(id));
    assert Insert(s, e).rows == kept + [e.(id := id)];
  }

  /** `@Delete`: removes the row whose key is the record's id, if any. */
  function Delete(s: Store, e: PasswordEntity): (r: Store)
    ensures forall x :: x in r.rows <==> x in s.rows && x.id != e.id
    ensures r.lastId == s.lastId
    ensures UniqueIds(s.rows) ==> UniqueIds(r.rows)
  {
    assert UniqueIds(s.rows) ==> UniqueIds(Select(s.rows, KeyOtherThan(e.id))) by {
      if UniqueIds(s.rows) {
        SelectKeepsUniqueIds(s.rows, KeyOtherThan(e.id));
      }
    }
    Store(Select(s.rows, KeyOtherThan(e.id)), s.lastId)
  }

  /** `deletePasswordsByFolderName`: `folderName = n` is never true for a NULL
      folder, so rows without a folder stay. */
  function DeleteByFolder(s: Store, n: string): (r: Store)
    ensures forall x :: x in r.rows <==> x in s.rows && x.folderName != Some(n)
    ensures forall x: PasswordEntity :: x.folderName != Some(n) ==> multiset(r.rows)[x] == multiset(s.rows)[x]
    ensures r.lastId == s.lastId
    ensures UniqueIds(s.rows) ==> UniqueIds(r.rows)
  {
    assert UniqueIds(s.rows) ==> UniqueIds(Select(s.rows, (x: PasswordEntity) => x.folderName != Some(n))) by {
      if UniqueIds(s.rows) {
        SelectKeepsUniqueIds(s.rows, (x: PasswordEntity) => x.folderName != Some(n));
      }
    }
    Store(Select(s.rows, (x: PasswordEntity) => x.folderName != Some(n)), s.lastId)
  }

  /** Newest first: `ORDER BY createdAt DESC`. */
  predicate NewestFirst(rs: seq<PasswordEntity>) {
    forall i, j :: 0 <= i < j < |rs| ==> rs[i].createdAt >= rs[j].createdAt
  }

  function InsertByAge(e: PasswordEntity, rs: seq<PasswordEntity>): (r: seq<PasswordEntity>)
    requires NewestFirst(rs)
    ensures NewestFirst(r)
    ensures multiset(r) == multiset(rs) + multiset{e}
    ensures forall x :: x in r <==> x == e || x in rs
    decreases |rs|
  {
    if |rs| == 0 || e.createdAt >= rs[0].createdAt then
      [e] + rs
    else
      var t := InsertByAge(e, rs[1..]);
      assert rs == [rs[0]] + rs[1..];
      NoNewerThanHead(e, rs, t);
      [rs[0]] + t
  }

  /** Whatever `InsertByAge` put after the head is no newer than the head. */
  lemma NoNewerThanHead(e: PasswordEntity, rs: seq<PasswordEntity>, t: seq<PasswordEntity>)
    requires NewestFirst(rs) && |rs| > 0 && e.createdAt < rs[0].createdAt
    requires forall x :: x in t <==> x == e || x in rs[1..]
    ensures forall k :: 0 <= k < |t| ==> t[k].createdAt <= rs[0].createdAt
  {
    forall k | 0 <= k < |t|
      ensures t[k].createdAt <= rs[0].createdAt
    {
      assert t[k] in t;
      if t[k] != e {
        var j :| 0 <= j < |rs[1..]| && rs[1..][j] == t[k];
        assert rs[j + 1] == t[k];
      }
    }
  }

  /** A stable sort, newest first. SQLite leaves the order of rows with equal
      `createdAt` unspecified; this one keeps their table order. */
  function SortNewestFirst(rs: seq<PasswordEntity>): (r: seq<PasswordEntity>)
    ensures NewestFirst(r)
    ensures multiset(r) == multiset(rs)
    decreases |rs|
  {
    if |rs| == 0 then []
    else
      assert rs == [rs[0]] + rs[1..];
      InsertByAge(rs[0], SortNewestFirst(rs[1..]))
  }

  /** A row that `getGeneratedFlow` lists: `folderName IS NULL OR folderName == ''`. */
  predicate Unfiled(x: PasswordEntity) {
    x.folderName == None || x.folderName == Some("")
  }

  /** A row that belongs to a listed folder. */
  predicate Filed(x: PasswordEntity) {
    x.folderName.Some? && x.folderName.value != ""
  }

  /** The row is filed under the non-empty name `m`. */
  predicate InFolder(x: PasswordEntity, m: string) {
    Filed(x) && x.folderName.value == m
  }

  /** `getAllFlow`: every row, newest first. */
  function All(s: Store): (r: seq<PasswordEntity>)
    ensures NewestFirst(r) && multiset(r) == multiset(s.rows)
  {
    SortNewestFirst(s.rows)
  }

  /** `getGeneratedFlow`: exactly the rows without a folder or with the empty
      folder name, newest first. */
  function UnfiledRows(s: Store): (r: seq<PasswordEntity>)
    ensures NewestFirst(r)
    ensures forall x :: multiset(r)[x] == if Unfiled(x) then multiset(s.rows)[x] else 0
  {
    SortNewestFirst(Select(s.rows, Unfiled))
  }

  /** `getByFolderFlow(n)`: exactly the rows filed under `n`, newest first. */
  function ByFolder(s: Store, n: string): (r: seq<PasswordEntity>)
    ensures NewestFirst(r)
    ensures forall x :: multiset(r)[x] == if x.folderName == Some(n) then multiset(s.rows)[x] else 0
  {
    SortNewestFirst(Select(s.rows, (x: PasswordEntity) => x.folderName == Some(n)))
  }

  /** Names in strictly ascending order: sorted, and no name twice. */
  predicate StrictlyAscending(ns: seq<string>) {
    forall i, j :: 0 <= i < j < |ns| ==> StrLess(ns[i], ns[j])
  }

  /** Adds `n` to an ascending list unless it is already there. */
  function InsertName(n: string, ns: seq<string>): (r: seq<string>)
    requires StrictlyAscending(ns)
    ensures StrictlyAscending(r)
    ensures forall m :: m in r <==> m == n || m in ns
    decreases |ns|
  {
    if |ns| == 0 then [n]
    else if n == ns[0] then ns
    else if StrLess(n, ns[0]) then
      forall j | 0 < j < |ns| ensures StrLess(n, ns[j]) {
        StrLessTransitive(n, ns[0], ns[j]);
      }
      [n] + ns
    else
      StrLessTotal(n, ns[0]);
      var t := InsertName(n, ns[1..]);
      assert forall m :: m in ns[1..] ==> StrLess(ns[0], m);
      [ns[0]] + t
  }

  /** The folder names of the rows, ascending, each once. */
  function FolderNamesOf(rs: seq<PasswordEntity>): (r: seq<string>)
    ensures StrictlyAscending(r)
    ensures forall m :: m in r <==> exists x :: x in rs && InFolder(x, m)
    decreases |rs|
  {
    if |rs| == 0 then []
    else
      var t := FolderNamesOf(rs[1..]);
      assert forall x :: x in rs <==> x == rs[0] || x in rs[1..];
      if Filed(rs[0]) then
        assert InFolder(rs[0], rs[0].folderName.value);
        InsertName(rs[0].folderName.value, t)
      else t
  }

  /** `getFoldersFlow`: the distinct non-empty folder names, ascending. */
  function Folders(s: Store): (r: seq<string>)
    ensures StrictlyAscending(r)
    ensures forall m :: m in r <==> exists x :: x in s.rows && InFolder(x, m)
  {
    FolderNamesOf(s.rows)
  }

  /** Every row shows up in exactly one place: the unfiled list, or under a
      folder the folder list names. */
  lemma UnfiledOrInListedFolder(s: Store, x: PasswordEntity)
    requires x in s.rows
    ensures x in UnfiledRows(s) <==> !(x.folderName.Some? && x.folderName.value in Folders(s))
  {
    var i :| 0 <= i < |s.rows| && s.rows[i] == x;
    assert multiset(s.rows)[x] > 0;
    if Filed(x) {
      assert x.folderName.value in Folders(s);
      assert multiset(UnfiledRows(s))[x] == 0;
    } else {
      assert multiset(UnfiledRows(s))[x] > 0;
      if x.folderName.Some? {
        assert x.folderName.value !in Folders(s);
      }
    }
  }

  /** After deleting a folder its name is no longer listed and it holds no rows. */
  lemma DeletedFolderIsGone(s: Store, n: string)
    ensures n !in Folders(DeleteByFolder(s, n))
    ensures ByFolder(DeleteByFolder(s, n), n) == []
  {
  }

  /** Deleting a folder leaves every other folder's rows as they were. */
  lemma DeleteByFolderKeepsOtherRows(s: Store, n: string, m: string)
    requires m != n
    ensures multiset(ByFolder(DeleteByFolder(s, n), m)) == multiset(ByFolder(s, m))
  {
    var r := DeleteByFolder(s, n);
    forall x ensures multiset(ByFolder(r, m))[x] == multiset(ByFolder(s, m))[x] {
      if x.folderName == Some(m) {
        assert multiset(r.rows)[x] == multiset(s.rows)[x];
      }
    }
  }

  /** Deleting a folder leaves every other folder listed or unlisted as before. */
  lemma DeleteByFolderKeepsOtherFolders(s: Store, n: string, m: string)
    requires m != n
    ensures m in Folders(DeleteByFolder(s, n)) <==> m in Folders(s)
  {
    var r := DeleteByFolder(s, n);
    if m in Folders(s) {
      var x :| x in s.rows && InFolder(x, m);
      assert x in r.rows;
    }
  }

  /** A row inserted with a non-empty folder name makes that folder listed,
      and shows up in that folder's listing. */
  lemma InsertedRowIsListed(s: Store, e: PasswordEntity)
    ensures var r := Insert(s, e);
      && (Filed(e) ==> e.folderName.value in Folders(r) && e.(id := AssignedId(s, e)) in ByFolder(r, e.folderName.value))
      && (Unfiled(e) ==> e.(id := AssignedId(s, e)) in UnfiledRows(r))
  {
    var r := Insert(s, e);
    var y := e.(id := AssignedId(s, e));
    assert multiset(r.rows)[y] > 0;
    if Filed(e) {
      assert InFolder(y, e.folderName.value);
      assert multiset(ByFolder(r, e.folderName.value))[y] > 0;
    }
    if Unfiled(e) {
      assert multiset(UnfiledRows(r))[y] > 0;
    }
  }

  /** `insertPassword`: the record stored as a row. */
  function InsertPassword(s: Store, p: Password): (r: Store)
    ensures ToEntity(p.(id := AssignedId(s, ToEntity(p)))) in r.rows
    ensures UniqueIds(s.rows) ==> UniqueIds(r.rows)
    ensures p.id == 0 ==> r.rows == s.rows + [ToEntity(p.(id := AssignedId(s, ToEntity(p))))]
  {
    var e := ToEntity(p);
    assert ToEntity(p.(id := AssignedId(s, e))) == e.(id := AssignedId(s, e));
    Insert(s, e)
  }

  /** Row `y` holds record `p`, under whatever key the store gave it. */
  predicate RowOf(p: Password, y: PasswordEntity) {
    y == ToEntity(p).(id := y.id)
  }

  /** No record carries a key yet. */
  predicate Unnumbered(ps: seq<Password>) {
    forall k :: 0 <= k < |ps| ==> ps[k].id == 0
  }

  /** Inserting an unnumbered record keeps every row and stores the record
      after them. */
  lemma InsertUnnumbered(s: Store, p: Password)
    requires p.id == 0
    ensures var r := InsertPassword(s, p);
      && |r.rows| == |s.rows| + 1
      && r.rows[..|s.rows|] == s.rows
      && RowOf(p, r.rows[|s.rows|])
  {
    var r := InsertPassword(s, p);
    assert r.rows == s.rows + [ToEntity(p).(id := AssignedId(s, ToEntity(p)))];
  }

  /** `insertPassword` called on each record in turn. Unnumbered records never
      replace a row: the earlier rows stay, in front and in order, and the
      table grows by one row per record. */
  function InsertAll(s: Store, ps: seq<Password>): (r: Store)
    ensures Unnumbered(ps) ==> |r.rows| == |s.rows| + |ps| && r.rows[..|s.rows|] == s.rows
    ensures UniqueIds(s.rows) ==> UniqueIds(r.rows)
    ensures ps == [] ==> r == s
    decreases |ps|
  {
    if |ps| == 0 then s
    else
      var s1 := InsertPassword(s, ps[0]);
      var r := InsertAll(s1, ps[1..]);
      assert Unnumbered(ps) ==> |r.rows| == |s.rows| + |ps| && r.rows[..|s.rows|] == s.rows by {
        if Unnumbered(ps) {
          UnnumberedTail(ps);
          InsertUnnumbered(s, ps[0]);
          PrefixOfPrefix(s.rows, s1.rows, r.rows);
        }
      }
      r
  }

  lemma UnnumberedTail(ps: seq<Password>)
    requires |ps| > 0 && Unnumbered(ps)
    ensures ps[0].id == 0 && Unnumbered(ps[1..])
  {
    forall k | 0 <= k < |ps[1..]| ensures ps[1..][k].id == 0 {
      assert ps[1..][k] == ps[k + 1];
    }
  }

  lemma PrefixOfPrefix(a: seq<PasswordEntity>, b: seq<PasswordEntity>, c: seq<PasswordEntity>)
    requires |a| <= |b| <= |c| && b[..|a|] == a && c[..|b|] == b
    ensures c[..|a|] == a
  {
    assert c[..|a|] == c[..|b|][..|a|];
  }

  /** `rows` holds the records of `ps`, one row per record, in order. */
  predicate RowsOf(ps: seq<Password>, rows: seq<PasswordEntity>)
    ensures RowsOf(ps, rows) ==> |rows| == |ps|
    decreases |ps|
  {
    if |ps| == 0 then |rows| == 0
    else |rows| > 0 && RowOf(ps[0], rows[0]) && RowsOf(ps[1..], rows[1..])
  }

  /** Reading one record's row out of `RowsOf`. */
  lemma {:induction false} RowsOfAt(ps: seq<Password>, rows: seq<PasswordEntity>, k: nat)
    requires RowsOf(ps, rows) && k < |ps|
    ensures RowOf(ps[k], rows[k])
    decreases k
  {
    if k > 0 {
      RowsOfAt(ps[1..], rows[1..], k - 1);
    }
  }

  /** The rows an unnumbered batch adds hold its records, one row per record,
      in order. */
  lemma {:induction false} InsertAllStoresEach(s: Store, ps: seq<Password>)
    requires Unnumbered(ps)
    ensures RowsOf(ps, InsertAll(s, ps).rows[|s.rows|..])
    decreases |ps|
  {
    var r := InsertAll(s, ps);
    if |ps| > 0 {
      var s1 := InsertPassword(s, ps[0]);
      var n := |s.rows|;
      assert r == InsertAll(s1, ps[1..]);
      UnnumberedTail(ps);
      InsertUnnumbered(s, ps[0]);
      InsertAllStoresEach(s1, ps[1..]);
      PrefixAt(s1.rows, r.rows, n);
      RowsOfStep(ps, r.rows, n);
    }
  }

  lemma PrefixAt(b: seq<PasswordEntity>, c: seq<PasswordEntity>, n: nat)
    requires n < |b| <= |c| && c[..|b|] == b
    ensures c[n] == b[n]
  {
    assert c[n] == c[..|b|][n];
  }

  lemma RowsOfStep(ps: seq<Password>, c: seq<PasswordEntity>, n: nat)
    requires |ps| > 0 && n < |c| && RowOf(ps[0], c[n]) && RowsOf(ps[1..], c[n + 1..])
    ensures RowsOf(ps, c[n..])
  {
    assert c[n..][1..] == c[n + 1..];
  }

  /** `deletePassword`. */
  function DeletePassword(s: Store, p: Password): (r: Store)
    ensures forall x :: x in r.rows <==> x in s.rows && x.id != p.id
    ensures UniqueIds(s.rows) ==> UniqueIds(r.rows)
  {
    Delete(s, ToEntity(p))
  }

  /** `entityList.map { it.toDomain() }`. */
  function ToDomainAll(rs: seq<PasswordEntity>): (ps: seq<Password>)
    ensures |ps| == |rs| && forall i :: 0 <= i < |rs| ==> ps[i] == ToDomain(rs[i])
  {
    seq(|rs|, i requires 0 <= i < |rs| => ToDomain(rs[i]))
  }

  lemma ToDomainAllHas(rs: seq<PasswordEntity>, y: PasswordEntity)
    requires y in rs
    ensures ToDomain(y) in ToDomainAll(rs)
  {
    var k :| 0 <= k < |rs| && rs[k] == y;
    assert ToDomainAll(rs)[k] == ToDomain(y);
  }

  /** `getPasswordsWithoutFolder`: the records of exactly the unfiled rows,
      newest first. */
  function PasswordsWithoutFolder(s: Store): (ps: seq<Password>)
    ensures forall i :: 0 <= i < |ps| ==> ToEntity(ps[i]) in s.rows && Unfiled(ToEntity(ps[i]))
    ensures forall y :: y in s.rows && Unfiled(y) ==> ToDomain(y) in ps
    ensures forall i, j :: 0 <= i < j < |ps| ==> ps[i].createdAt >= ps[j].createdAt
  {
    var rs := UnfiledRows(s);
    ListedExactly(s.rows, rs, Unfiled);
    ToDomainAll(rs)
  }

  /** `getPasswordsByFolder`: the records of exactly the rows filed under
      `n`, newest first. */
  function PasswordsByFolder(s: Store, n: string): (ps: seq<Password>)
    ensures forall i :: 0 <= i < |ps| ==> ToEntity(ps[i]) in s.rows && ps[i].folderName == Some(n)
    ensures forall y :: y in s.rows && y.folderName == Some(n) ==> ToDomain(y) in ps
    ensures forall i, j :: 0 <= i < j < |ps| ==> ps[i].createdAt >= ps[j].createdAt
  {
    var keep := (x: PasswordEntity) => x.folderName == Some(n);
    var rs := ByFolder(s, n);
    ListedExactly(s.rows, rs, keep);
    ToDomainAll(rs)
  }

  /** A newest-first listing of the rows `keep` accepts, converted to records. */
  lemma ListedExactly(rows: seq<PasswordEntity>, rs: seq<PasswordEntity>, keep: PasswordEntity -> bool)
    requires NewestFirst(rs)
    requires forall x :: multiset(rs)[x] == if keep(x) then multiset(rows)[x] else 0
    ensures var ps := ToDomainAll(rs);
      && (forall i :: 0 <= i < |ps| ==> ToEntity(ps[i]) in rows && keep(ToEntity(ps[i])))
      && (forall y :: y in rows && keep(y) ==> ToDomain(y) in ps)
      && (forall i, j :: 0 <= i < j < |ps| ==> ps[i].createdAt >= ps[j].createdAt)
  {
    var ps := ToDomainAll(rs);
    forall i | 0 <= i < |ps| ensures ToEntity(ps[i]) in rows && keep(ToEntity(ps[i])) {
      assert ToEntity(ps[i]) == rs[i];
      assert multiset(rs)[rs[i]] > 0;
    }
    forall y | y in rows && keep(y) ensures ToDomain(y) in ps {
      assert multiset(rows)[y] > 0;
      assert multiset(rs)[y] > 0;
      ToDomainAllHas(rs, y);
    }
    forall i, j | 0 <= i < j < |ps| ensures ps[i].createdAt >= ps[j].createdAt {
      assert ps[i].createdAt == rs[i].createdAt && ps[j].createdAt == rs[j].createdAt;
    }
  }
}
