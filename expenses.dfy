/** The two server operations of convex/expenses.ts over the `expenses` table:
    the `get` query (newest date first, optionally one category) and the
    idempotent `create` mutation. */
module Expenses {
  import opened Schema
  import opened Sequences
  import opened Dates

  // ---------------------------------------------------------------------
  // Views of a list of records

  function IsCategory(c: string): Expense -> bool {
    (e: Expense) => e.category == c
  }

  function IsOnDate(d: string): Expense -> bool {
    (e: Expense) => e.date == d
  }

  function HasIdempotencyKey(key: string): Expense -> bool {
    (e: Expense) => e.idempotencyKey == key
  }

  /** The records of category `c`, in their original order. */
  function OfCategory(s: seq<Expense>, c: string): seq<Expense> {
    Filter(s, IsCategory(c))
  }

  /** The records dated `d`, in their original order. */
  function OnDate(s: seq<Expense>, d: string): seq<Expense> {
    Filter(s, IsOnDate(d))
  }

  /** The records carrying idempotency key `key`, in their original order. */
  function WithKey(s: seq<Expense>, key: string): seq<Expense> {
    Filter(s, HasIdempotencyKey(key))
  }

  /** No record is dated later than one before it. */
  predicate SortedByDateDesc(s: seq<Expense>) {
    forall i, j :: 0 <= i < j < |s| ==> DateLe(s[j].date, s[i].date)
  }

  // ---------------------------------------------------------------------
  // get

  /** Whether `get` restricts the list to one category.  The source tests
      `args.category && args.category !== "All"`: an absent argument, the
      empty string (which is falsy) and the sentinel "All" all mean no filter. */
  predicate FiltersBy(category: Option<string>) {
    category.Some? && category.value != "" && category.value != "All"
  }

  /** The stored records `get` is meant to list, in insertion order. */
  function Shown(records: seq<Expense>, category: Option<string>): seq<Expense> {
    if FiltersBy(category) then OfCategory(records, category.value) else records
  }

  /** Places `e` before the first record of `s` dated no later than `e`.  Records
      dated later than `e` stay in front of it, so records of equal date keep
      the order in which they are inserted. */
  function InsertByDate(e: Expense, s: seq<Expense>): (r: seq<Expense>)
    ensures multiset(r) == multiset(s) + multiset{e}
  {
    if s == [] then [e]
    else if DateLe(s[0].date, e.date) then [e] + s
    else
      assert s == [s[0]] + s[1..];
      [s[0]] + InsertByDate(e, s[1..])
  }

  /** A stable sort, newest date first: `Array.prototype.sort` with the
      comparator `b.date - a.date`. */
  function SortByDateDesc(s: seq<Expense>): (r: seq<Expense>)
    ensures multiset(r) == multiset(s)
  {
    if s == [] then []
    else
      assert s == [s[0]] + s[1..];
      InsertByDate(s[0], SortByDateDesc(s[1..]))
  }

  /** The list query.  The table is read newest-created first
      (`.order("desc")`), sorted by date, newest first, and then filtered.
      The result lists exactly the records `Shown` selects, newest date
      first, and among records of one date the later-inserted one first. */
  function Get(records: seq<Expense>, category: Option<string>): (r: seq<Expense>)
    ensures multiset(r) == multiset(Shown(records, category))
    ensures SortedByDateDesc(r)
    ensures forall d :: OnDate(r, d) == Reverse(OnDate(Shown(records, category), d))
  {
    var newestCreatedFirst := Reverse(records);
    var byDate := SortByDateDesc(newestCreatedFirst);
    SortIsSorted(newestCreatedFirst);
    ListedTies(records, category, byDate);
    if FiltersBy(category) then
      FilterKeepsSorted(byDate, IsCategory(category.value));
      FilterPermutation(byDate, records, IsCategory(category.value));
      OfCategory(byDate, category.value)
    else
      byDate
  }

  // ---------------------------------------------------------------------
  // Lemmas about get

  lemma SortedTail(s: seq<Expense>)
    requires s != [] && SortedByDateDesc(s)
    ensures SortedByDateDesc(s[1..])
  {
    forall i, j | 0 <= i < j < |s| - 1 ensures DateLe(s[1..][j].date, s[1..][i].date) {
      assert s[1..][j] == s[j + 1] && s[1..][i] == s[i + 1];
    }
  }

  /** Every element of a sorted list is dated no later than its head. */
  lemma HeadIsNewest(s: seq<Expense>, x: Expense)
    requires SortedByDateDesc(s) && x in s
    ensures DateLe(x.date, s[0].date)
  {
    var k :| 0 <= k < |s| && s[k] == x;
    if k == 0 {
      DateLeReflexive(x.date);
    }
  }

  lemma {:induction false} InsertKeepsSorted(e: Expense, s: seq<Expense>)
    requires SortedByDateDesc(s)
    ensures SortedByDateDesc(InsertByDate(e, s))
  {
    if s == [] {
    } else if DateLe(s[0].date, e.date) {
      var r := [e] + s;
      forall i, j | 0 <= i < j < |r| ensures DateLe(r[j].date, r[i].date) {
        if i == 0 {
          assert r[j] == s[j - 1];
          HeadIsNewest(s, s[j - 1]);
          DateLeTransitive(s[j - 1].date, s[0].date, e.date);
        } else {
          assert r[i] == s[i - 1] && r[j] == s[j - 1];
        }
      }
    } else {
      SortedTail(s);
      InsertKeepsSorted(e, s[1..]);
      DateLeTotal(s[0].date, e.date);
      var rest := InsertByDate(e, s[1..]);
      var r := [s[0]] + rest;
      forall i, j | 0 <= i < j < |r| ensures DateLe(r[j].date, r[i].date) {
        if i == 0 {
          assert r[j] in multiset(rest);
          if r[j] != e {
            assert r[j] in s[1..];
            HeadIsNewest(s, r[j]);
          }
        } else {
          assert r[i] == rest[i - 1] && r[j] == rest[j - 1];
        }
      }
    }
  }

  lemma {:induction false} SortIsSorted(s: seq<Expense>)
    ensures SortedByDateDesc(SortByDateDesc(s))
  {
    if s != [] {
      SortIsSorted(s[1..]);
      InsertKeepsSorted(s[0], SortByDateDesc(s[1..]));
    }
  }

  /** Filtering keeps a list sorted: it only drops records. */
  lemma {:induction false} FilterKeepsSorted(s: seq<Expense>, p: Expense -> bool)
    requires SortedByDateDesc(s)
    ensures SortedByDateDesc(Filter(s, p))
  {
    if s != [] {
      SortedTail(s);
      FilterKeepsSorted(s[1..], p);
      var rest := Filter(s[1..], p);
      if p(s[0]) {
        var r := [s[0]] + rest;
        forall i, j | 0 <= i < j < |r| ensures DateLe(r[j].date, r[i].date) {
          if i == 0 {
            assert r[j] in rest;
            HeadIsNewest(s, r[j]);
          } else {
            assert r[i] == rest[i - 1] && r[j] == rest[j - 1];
          }
        }
      } else {
        assert Filter(s, p) == rest;
      }
    }
  }

  /** Inserting `e` puts it in front of every record of the same date. */
  lemma {:induction false} InsertTies(e: Expense, s: seq<Expense>, d: string)
    ensures OnDate(InsertByDate(e, s), d) == (if e.date == d then [e] else []) + OnDate(s, d)
  {
    var p := IsOnDate(d);
    if s == [] {
      FilterCons(e, [], p);
    } else if DateLe(s[0].date, e.date) {
      FilterCons(e, s, p);
    } else {
      DateLeReflexive(e.date);
      InsertTies(e, s[1..], d);
      FilterCons(s[0], InsertByDate(e, s[1..]), p);
      FilterCons(s[0], s[1..], p);
      assert s == [s[0]] + s[1..];
    }
  }

  /** The sort is stable: for every date it keeps the input order. */
  lemma {:induction false} SortTies(s: seq<Expense>, d: string)
    ensures OnDate(SortByDateDesc(s), d) == OnDate(s, d)
  {
    if s != [] {
      SortTies(s[1..], d);
      InsertTies(s[0], SortByDateDesc(s[1..]), d);
    }
  }

  /** The same-date runs of the listing are those of the store, reversed. */
  lemma ListedTies(records: seq<Expense>, category: Option<string>, byDate: seq<Expense>)
    requires byDate == SortByDateDesc(Reverse(records))
    ensures forall d :: OnDate(if FiltersBy(category) then OfCategory(byDate, category.value) else byDate, d)
                        == Reverse(OnDate(Shown(records, category), d))
  {
    forall d ensures OnDate(if FiltersBy(category) then OfCategory(byDate, category.value) else byDate, d)
                     == Reverse(OnDate(Shown(records, category), d))
    {
      SortTies(Reverse(records), d);
      FilterReverse(records, IsOnDate(d));
      if FiltersBy(category) {
        var pc, pd := IsCategory(category.value), IsOnDate(d);
        FilterCommute(byDate, pc, pd);
        FilterReverse(Filter(records, pd), pc);
        FilterCommute(records, pc, pd);
      }
    }
  }

  /** A list with no record of any date is empty. */
  lemma NoTiesMeansEmpty(s: seq<Expense>)
    ensures (forall d :: OnDate(s, d) == []) ==> s == []
  {
    if s != [] {
      assert OnDate(s, s[0].date) == [s[0]] + OnDate(s[1..], s[0].date);
    }
  }

  /** A sorted list is determined by its same-date runs. */
  lemma {:induction false} SortedTiesDetermine(s1: seq<Expense>, s2: seq<Expense>)
    requires SortedByDateDesc(s1) && SortedByDateDesc(s2)
    requires forall d :: OnDate(s1, d) == OnDate(s2, d)
    ensures s1 == s2
    decreases |s1|
  {
    if s1 == [] {
      NoTiesMeansEmpty(s2);
    } else if s2 == [] {
      NoTiesMeansEmpty(s1);
    } else {
      var d1, d2 := s1[0].date, s2[0].date;
      assert OnDate(s1, d1) == [s1[0]] + OnDate(s1[1..], d1);
      assert OnDate(s2, d2) == [s2[0]] + OnDate(s2[1..], d2);
      var x2 := OnDate(s1, d2)[0];
      assert x2 in OnDate(s1, d2);
      HeadIsNewest(s1, x2);
      var x1 := OnDate(s2, d1)[0];
      assert x1 in OnDate(s2, d1);
      HeadIsNewest(s2, x1);
      DateLeAntisymmetric(d1, d2);
      assert s1[0] == s2[0];
      assert s1 == [s1[0]] + s1[1..] && s2 == [s2[0]] + s2[1..];
      forall d ensures OnDate(s1[1..], d) == OnDate(s2[1..], d) {
        var h := if s1[0].date == d then [s1[0]] else [];
        FilterCons(s1[0], s1[1..], IsOnDate(d));
        FilterCons(s2[0], s2[1..], IsOnDate(d));
        assert OnDate(s1, d) == h + OnDate(s1[1..], d);
        assert OnDate(s2, d) == h + OnDate(s2[1..], d);
        assert OnDate(s1, d) == OnDate(s2, d);
        assert (h + OnDate(s1[1..], d))[|h|..] == OnDate(s1[1..], d);
        assert (h + OnDate(s2[1..], d))[|h|..] == OnDate(s2[1..], d);
      }
      SortedTail(s1);
      SortedTail(s2);
      SortedTiesDetermine(s1[1..], s2[1..]);
      assert s1 == [s1[0]] + s1[1..] && s2 == [s2[0]] + s2[1..];
    }
  }

  /** What `get` returns is the only list that is sorted newest date first and
      lists the records of each date later-inserted first. */
  lemma GetIsUnique(records: seq<Expense>, category: Option<string>, s: seq<Expense>)
    requires SortedByDateDesc(s)
    requires forall d :: OnDate(s, d) == Reverse(OnDate(Shown(records, category), d))
    ensures s == Get(records, category)
  {
    SortedTiesDetermine(s, Get(records, category));
  }

  /** Sorting first and filtering second, as the query does, gives the same
      list as filtering the newest-created-first read and then sorting it. */
  lemma FilterThenSortAgrees(records: seq<Expense>, c: string)
    requires FiltersBy(Some(c))
    ensures Get(records, Some(c)) == SortByDateDesc(Reverse(OfCategory(records, c)))
  {
    var s := SortByDateDesc(Reverse(OfCategory(records, c)));
    SortIsSorted(Reverse(OfCategory(records, c)));
    forall d ensures OnDate(s, d) == Reverse(OnDate(Shown(records, Some(c)), d)) {
      SortTies(Reverse(OfCategory(records, c)), d);
      FilterReverse(OfCategory(records, c), IsOnDate(d));
    }
    GetIsUnique(records, Some(c), s);
  }

  /** Without a filter, `get` lists every stored record, each exactly as often
      as it is stored. */
  lemma GetAllListsEveryRecord(records: seq<Expense>, category: Option<string>)
    requires !FiltersBy(category)
    ensures multiset(Get(records, category)) == multiset(records)
    ensures |Get(records, category)| == |records|
    ensures forall e: Expense :: e in Get(records, category) <==> e in records
  {
    var r := Get(records, category);
    assert multiset(r) == multiset(records);
    assert |multiset(r)| == |multiset(records)|;
    forall e: Expense ensures e in r <==> e in records {
      assert e in r <==> e in multiset(r);
      assert e in records <==> e in multiset(records);
    }
  }

  /** With a filter `c`, `get` lists exactly the stored records of category
      `c`: nothing dropped, nothing added. */
  lemma GetCategoryExact(records: seq<Expense>, c: string)
    requires FiltersBy(Some(c))
    ensures forall e: Expense :: multiset(Get(records, Some(c)))[e] == if e.category == c then multiset(records)[e] else 0
    ensures forall e: Expense :: e in Get(records, Some(c)) <==> e in records && e.category == c
  {
    var r := Get(records, Some(c));
    forall e: Expense ensures multiset(r)[e] == if e.category == c then multiset(records)[e] else 0 {
      FilterMultiplicity(records, IsCategory(c), e);
    }
    forall e: Expense ensures e in r <==> e in records && e.category == c {
      assert e in r <==> e in multiset(r);
      assert e in records <==> e in multiset(records);
    }
  }

  // ---------------------------------------------------------------------
  // create

  /** The arguments of the create mutation.  The amount is only checked to
      be a number: nothing requires it to be positive. */
  datatype CreateArgs = CreateArgs(
    amountInPaise: int,
    category: string,
    description: string,
    date: string,
    idempotencyKey: string
  )

  /** The table in insertion order, with the id the next insert receives. */
  datatype Table = Table(records: seq<Expense>, nextId: ExpenseId)

  /** The table after a create call, and the id the call returns. */
  datatype Created = Created(table: Table, id: ExpenseId)

  /** The store's id discipline: every id was handed out before `nextId`,
      and no two records share one. */
  predicate IdsFresh(t: Table) {
    && (forall i :: 0 <= i < |t.records| ==> t.records[i].id < t.nextId)
    && (forall i, j :: 0 <= i < j < |t.records| ==> t.records[i].id != t.records[j].id)
  }

  /** No two records carry the same idempotency key. */
  predicate KeysUnique(records: seq<Expense>) {
    forall i, j :: 0 <= i < j < |records| ==> records[i].idempotencyKey != records[j].idempotencyKey
  }

  predicate HasKey(records: seq<Expense>, key: string) {
    exists i :: 0 <= i < |records| && records[i].idempotencyKey == key
  }

  /** The lookup through the `by_idempotencyKey` index followed by `.first()`:
      the position of the earliest-inserted record with key `key`, if any. */
  function FirstWithKey(records: seq<Expense>, key: string): (r: Option<nat>)
    ensures r.None? <==> !HasKey(records, key)
    ensures r.Some? ==> r.value < |records| && records[r.value].idempotencyKey == key
    ensures r.Some? ==> forall j :: 0 <= j < r.value ==> records[j].idempotencyKey != key
  {
    if records == [] then None
    else if records[0].idempotencyKey == key then Some(0)
    else
      match FirstWithKey(records[1..], key)
      case None =>
        assert forall i :: 0 < i < |records| ==> records[i] == records[1..][i - 1];
        None
      case Some(i) => Some(i + 1)
  }

  /** `e` holds the business fields of `args` and no creation time. */
  predicate Carries(e: Expense, args: CreateArgs) {
    && e.amountInPaise == args.amountInPaise
    && e.category == args.category
    && e.description == args.description
    && e.date == args.date
    && e.idempotencyKey == args.idempotencyKey
    && e.createdAt.None?
  }

  /** The insert: the mutation writes the five argument fields and omits
      `createdAt`. */
  function NewRecord(id: ExpenseId, args: CreateArgs): (e: Expense)
    ensures Carries(e, args) && e.id == id
  {
    Expense(id, args.amountInPaise, args.category, args.description, args.date, args.idempotencyKey, None)
  }

  /** The create mutation on a table snapshot.  A call whose key is already
      stored returns that record's id and changes nothing; otherwise it
      appends one record with a fresh id.  Either way the returned id is the
      one the key lookup finds afterwards, earlier records are untouched, and
      the id discipline and key uniqueness are kept. */
  function CreateOn(t: Table, args: CreateArgs): (r: Created)
    ensures t.records <= r.table.records && |r.table.records| <= |t.records| + 1
    ensures HasKey(t.records, args.idempotencyKey) ==> r.table == t
    ensures !HasKey(t.records, args.idempotencyKey) ==>
              && |r.table.records| == |t.records| + 1
              && Carries(r.table.records[|t.records|], args)
              && r.id == r.table.records[|t.records|].id == t.nextId
              && r.table.nextId == t.nextId + 1
    ensures var found := FirstWithKey(r.table.records, args.idempotencyKey);
            found.Some? && r.table.records[found.value].id == r.id
    ensures IdsFresh(t) ==> IdsFresh(r.table)
    ensures KeysUnique(t.records) ==> KeysUnique(r.table.records)
  {
    match FirstWithKey(t.records, args.idempotencyKey)
    case Some(i) => Created(t, t.records[i].id)
    case None =>
      var records := t.records + [NewRecord(t.nextId, args)];
      assert FirstWithKey(records, args.idempotencyKey) == Some(|t.records|) by {
        assert forall j :: 0 <= j < |t.records| ==> records[j] == t.records[j];
        assert records[|t.records|].idempotencyKey == args.idempotencyKey;
        assert HasKey(records, args.idempotencyKey);
      }
      Created(Table(records, t.nextId + 1), t.nextId)
  }

  // ---------------------------------------------------------------------
  // Lemmas about create

  /** A retried call with the same key, whatever its other fields, returns the
      same id and changes nothing: the store grows by at most one record. */
  lemma CreateTwiceSameKey(t: Table, first: CreateArgs, retry: CreateArgs)
    requires first.idempotencyKey == retry.idempotencyKey
    ensures var r1 := CreateOn(t, first);
            var r2 := CreateOn(r1.table, retry);
            r2.id == r1.id && r2.table == r1.table && |r2.table.records| <= |t.records| + 1
  {
    var r1 := CreateOn(t, first);
    var found := FirstWithKey(r1.table.records, first.idempotencyKey);
    assert HasKey(r1.table.records, retry.idempotencyKey);
  }

  /** With unique keys, the only record carrying key `key` is `s[i]`. */
  lemma {:induction false} UniqueKeyRecord(s: seq<Expense>, i: nat)
    requires KeysUnique(s) && i < |s|
    ensures WithKey(s, s[i].idempotencyKey) == [s[i]]
  {
    var key := s[i].idempotencyKey;
    assert KeysUnique(s[1..]) by {
      forall a, b | 0 <= a < b < |s| - 1 ensures s[1..][a].idempotencyKey != s[1..][b].idempotencyKey {
        assert s[1..][a] == s[a + 1] && s[1..][b] == s[b + 1];
      }
    }
    assert s == [s[0]] + s[1..];
    FilterCons(s[0], s[1..], HasIdempotencyKey(key));
    if i == 0 {
      forall k | 0 <= k < |s[1..]| ensures !HasIdempotencyKey(key)(s[1..][k]) {
        assert s[1..][k] == s[k + 1];
      }
      FilterNone(s[1..], HasIdempotencyKey(key));
    } else {
      UniqueKeyRecord(s[1..], i - 1);
      assert s[1..][i - 1] == s[i];
    }
  }

  /** After any create on a table with unique keys, exactly one record carries
      the key, and it is the one whose id the call returns. */
  lemma CreateLeavesOneRecordPerKey(t: Table, args: CreateArgs)
    requires KeysUnique(t.records)
    ensures var r := CreateOn(t, args);
            |WithKey(r.table.records, args.idempotencyKey)| == 1
            && WithKey(r.table.records, args.idempotencyKey)[0].id == r.id
  {
    var r := CreateOn(t, args);
    var found := FirstWithKey(r.table.records, args.idempotencyKey);
    UniqueKeyRecord(r.table.records, found.value);
  }

  // ---------------------------------------------------------------------
  // The table as mutable state

  /** The `expenses` table.  `records` is in insertion order; `nextId` stands
      for the store's id generator. */
  class ExpenseStore {
    var records: seq<Expense>
    var nextId: ExpenseId

    /** Ids are fresh and no two records share an idempotency key. */
    ghost predicate Valid()
      reads this
    {
      IdsFresh(Table(records, nextId)) && KeysUnique(records)
    }

    function Snapshot(): Table
      reads this
    {
      Table(records, nextId)
    }

    constructor ()
      ensures Valid() && records == []
    {
      records := [];
      nextId := 0;
    }

    /** The create mutation: look the key up, return the stored record's id if
        there is one, otherwise insert and return the new id. */
    method Create(args: CreateArgs) returns (id: ExpenseId)
      requires Valid()
      modifies this
      ensures Valid()
      ensures Created(Snapshot(), id) == CreateOn(old(Snapshot()), args)
      ensures |WithKey(records, args.idempotencyKey)| == 1
              && WithKey(records, args.idempotencyKey)[0].id == id
    {
      CreateLeavesOneRecordPerKey(Snapshot(), args);
      var existing := FirstWithKey(records, args.idempotencyKey);
      if existing.Some? {
        id := records[existing.value].id;
        return;
      }
      id := nextId;
      records := records + [NewRecord(id, args)];
      nextId := nextId + 1;
    }
  }

  /** A lunch saved twice under one key and then listed under its category:
      both calls return the same id and the listing shows the one record. */
  method SaveTwiceThenList() returns (first: ExpenseId, second: ExpenseId, listed: seq<Expense>)
    ensures first == second
    ensures |listed| == 1 && listed[0].id == first
    ensures listed[0].amountInPaise == 1050 && listed[0].category == "Food"
    ensures listed[0].description == "Lunch" && listed[0].date == "2024-05-01"
  {
    var store := new ExpenseStore();
    var args := CreateArgs(1050, "Food", "Lunch", "2024-05-01", "k1");
    first := store.Create(args);
    second := store.Create(args);
    var record := NewRecord(first, args);
    assert store.records == [record];
    FilterCons(record, [], IsCategory("Food"));
    listed := Get(store.records, Some("Food"));
    assert multiset(listed) == multiset{record};
    assert |listed| == 1;
    assert listed[0] in multiset(listed);
  }
}
