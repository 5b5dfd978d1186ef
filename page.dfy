/** The logic of the expense tracker page (app/page.tsx): the total and the
    per-category totals of the listed expenses, and the submit handler of the
    add-expense form with its in-flight guard and idempotency key. */
module Page {
  import opened Schema
  import opened Sequences
  import opened Expenses

  // ---------------------------------------------------------------------
  // Totals

  /** `reduce((sum, exp) => sum + exp.amountInPaise, 0)`: a left fold. */
  function SumAmounts(s: seq<Expense>): int {
    if s == [] then 0 else SumAmounts(s[..|s| - 1]) + s[|s| - 1].amountInPaise
  }

  /** The header total.  `expenses` is `None` while the query is loading. */
  function TotalInPaise(expenses: Option<seq<Expense>>): (total: int)
    ensures expenses.None? || expenses.value == [] ==> total == 0
  {
    if expenses.None? then 0
    else SumAmounts(expenses.value)
  }

  lemma SumAmountsAppend(s: seq<Expense>, e: Expense)
    ensures SumAmounts(s + [e]) == SumAmounts(s) + e.amountInPaise
  {
    assert (s + [e])[..|s|] == s;
  }

  /** The total of two lists joined is the sum of their totals. */
  lemma {:induction false} SumAmountsConcat(a: seq<Expense>, b: seq<Expense>)
    ensures SumAmounts(a + b) == SumAmounts(a) + SumAmounts(b)
    decreases |b|
  {
    if b == [] {
      assert a + b == a;
    } else {
      var b' := b[..|b| - 1];
      assert a + b == (a + b') + [b[|b| - 1]];
      assert b == b' + [b[|b| - 1]];
      SumAmountsAppend(a + b', b[|b| - 1]);
      SumAmountsAppend(b', b[|b| - 1]);
      SumAmountsConcat(a, b');
    }
  }

  /** The total does not depend on the order of the list. */
  lemma {:induction false} SumAmountsPermutation(a: seq<Expense>, b: seq<Expense>)
    requires multiset(a) == multiset(b)
    ensures SumAmounts(a) == SumAmounts(b)
    decreases |a|
  {
    if a != [] {
      var a', x := a[..|a| - 1], a[|a| - 1];
      assert a == a' + [x];
      assert x in multiset(b);
      var k :| 0 <= k < |b| && b[k] == x;
      var b' := b[..k] + b[k + 1..];
      assert b == b[..k] + [x] + b[k + 1..];
      assert multiset(b) == multiset(b[..k]) + multiset{x} + multiset(b[k + 1..]);
      assert multiset(b') == multiset(b[..k]) + multiset(b[k + 1..]);
      assert multiset(a) == multiset(a') + multiset{x};
      assert multiset(a') == multiset(a) - multiset{x};
      assert multiset(b') == multiset(b) - multiset{x};
      SumAmountsPermutation(a', b');
      SumAmountsAppend(a', x);
      SumAmountsConcat(b[..k] + [x], b[k + 1..]);
      SumAmountsAppend(b[..k], x);
      SumAmountsConcat(b[..k], b[k + 1..]);
    }
  }

  /** The header total is the sum over the stored records the query lists:
      all of them, or those of the chosen category. */
  lemma DisplayedTotal(records: seq<Expense>, category: Option<string>)
    ensures TotalInPaise(Some(Get(records, category))) == SumAmounts(Shown(records, category))
  {
    SumAmountsPermutation(Get(records, category), Shown(records, category));
  }

  // ---------------------------------------------------------------------
  // Per-category totals

  function CategoriesOf(s: seq<Expense>): set<string> {
    set e | e in s :: e.category
  }

  lemma CategorySumStep(s: seq<Expense>, e: Expense, c: string)
    ensures SumAmounts(OfCategory(s + [e], c))
            == SumAmounts(OfCategory(s, c)) + (if e.category == c then e.amountInPaise else 0)
  {
    FilterConcat(s, [e], IsCategory(c));
    FilterCons(e, [], IsCategory(c));
    if e.category == c {
      SumAmountsAppend(OfCategory(s, c), e);
    } else {
      assert OfCategory(s + [e], c) == OfCategory(s, c);
    }
  }

  lemma AbsentCategorySum(s: seq<Expense>, c: string)
    requires c !in CategoriesOf(s)
    ensures SumAmounts(OfCategory(s, c)) == 0
  {
    forall i | 0 <= i < |s| ensures !IsCategory(c)(s[i]) {
      assert s[i] in s;
    }
    FilterNone(s, IsCategory(c));
  }

  /** The accumulator after `acc[exp.category] = (acc[exp.category] || 0) +
      exp.amountInPaise`; a missing key reads as 0. */
  function Updated(acc: map<string, int>, exp: Expense): map<string, int> {
    acc[exp.category := (if exp.category in acc then acc[exp.category] else 0) + exp.amountInPaise]
  }

  /** One accumulator step turns the per-category sums of `done` into those
      of `done` followed by `exp`. */
  lemma AccumulateStep(acc: map<string, int>, done: seq<Expense>, exp: Expense)
    requires acc.Keys == CategoriesOf(done)
    requires forall c :: c in acc ==> acc[c] == SumAmounts(OfCategory(done, c))
    ensures Updated(acc, exp).Keys == CategoriesOf(done + [exp])
    ensures forall c :: c in Updated(acc, exp) ==> Updated(acc, exp)[c] == SumAmounts(OfCategory(done + [exp], c))
  {
    CategoriesAppend(done, exp);
    var acc' := Updated(acc, exp);
    forall c | c in acc' ensures acc'[c] == SumAmounts(OfCategory(done + [exp], c)) {
      CategorySumStep(done, exp, c);
      if c == exp.category && c !in acc {
        AbsentCategorySum(done, c);
      }
    }
  }

  lemma CategoriesAppend(s: seq<Expense>, e: Expense)
    ensures CategoriesOf(s + [e]) == CategoriesOf(s) + {e.category}
  {
    assert forall x :: x in s + [e] <==> x in s || x == e;
  }

  /** The summary cards: a map from each category present in the listed
      expenses to the sum of its amounts, built by updating an accumulator
      once per expense, in list order.  `None` while the query is loading. */
  method CategoryTotals(expenses: Option<seq<Expense>>) returns (totals: Option<map<string, int>>)
    ensures totals.None? <==> expenses.None?
    ensures expenses.Some? ==> totals.value.Keys == CategoriesOf(expenses.value)
    ensures expenses.Some? ==> forall c :: c in totals.value ==>
              totals.value[c] == SumAmounts(OfCategory(expenses.value, c))
  {
    if expenses.None? {
      return None;
    }
    var s := expenses.value;
    var acc: map<string, int> := map[];
    var i := 0;
    while i < |s|
      invariant 0 <= i <= |s|
      invariant acc.Keys == CategoriesOf(s[..i])
      invariant forall c :: c in acc ==> acc[c] == SumAmounts(OfCategory(s[..i], c))
    {
      var exp := s[i];
      AccumulateStep(acc, s[..i], exp);
      acc := Updated(acc, exp);
      assert s[..i + 1] == s[..i] + [exp];
      i := i + 1;
    }
    assert s[..|s|] == s;
    totals := Some(acc);
  }

  predicate NoDuplicates(ks: seq<string>) {
    forall i, j :: 0 <= i < j < |ks| ==> ks[i] != ks[j]
  }

  /** The sum of `m`'s values at the keys `ks`, in that order. */
  function SumAt(m: map<string, int>, ks: seq<string>): int
    requires forall k :: k in ks ==> k in m
  {
    if ks == [] then 0 else m[ks[0]] + SumAt(m, ks[1..])
  }

  /** The sum of the per-category sums over the categories `ks`. */
  function CategorySums(s: seq<Expense>, ks: seq<string>): int {
    if ks == [] then 0 else SumAmounts(OfCategory(s, ks[0])) + CategorySums(s, ks[1..])
  }

  lemma {:induction false} CategorySumsStep(s: seq<Expense>, e: Expense, ks: seq<string>)
    requires NoDuplicates(ks)
    ensures CategorySums(s + [e], ks) == CategorySums(s, ks) + (if e.category in ks then e.amountInPaise else 0)
  {
    if ks != [] {
      assert NoDuplicates(ks[1..]) by {
        forall i, j | 0 <= i < j < |ks| - 1 ensures ks[1..][i] != ks[1..][j] {
          assert ks[1..][i] == ks[i + 1] && ks[1..][j] == ks[j + 1];
        }
      }
      CategorySumStep(s, e, ks[0]);
      CategorySumsStep(s, e, ks[1..]);
      assert e.category in ks <==> e.category == ks[0] || e.category in ks[1..];
      if e.category == ks[0] {
        assert e.category !in ks[1..];
      }
    }
  }

  /** Summing the per-category sums over distinct categories that include
      every category of `s` gives the total of `s`. */
  lemma {:induction false} CategorySumsCoverTotal(s: seq<Expense>, ks: seq<string>)
    requires NoDuplicates(ks) && forall c :: c in CategoriesOf(s) ==> c in ks
    ensures CategorySums(s, ks) == SumAmounts(s)
    decreases |s|
  {
    if s == [] {
      EmptyCategorySums(ks);
    } else {
      var s', e := s[..|s| - 1], s[|s| - 1];
      assert s == s' + [e];
      assert e in s;
      forall c | c in CategoriesOf(s') ensures c in ks {
        var x :| x in s' && x.category == c;
        assert x in s;
      }
      CategorySumsCoverTotal(s', ks);
      CategorySumsStep(s', e, ks);
      SumAmountsAppend(s', e);
    }
  }

  lemma {:induction false} EmptyCategorySums(ks: seq<string>)
    ensures CategorySums([], ks) == 0
  {
    if ks != [] {
      EmptyCategorySums(ks[1..]);
    }
  }

  lemma {:induction false} SumAtCategoryTotals(s: seq<Expense>, m: map<string, int>, ks: seq<string>)
    requires forall c :: c in m ==> m[c] == SumAmounts(OfCategory(s, c))
    requires forall k :: k in ks ==> k in m
    ensures SumAt(m, ks) == CategorySums(s, ks)
  {
    if ks != [] {
      SumAtCategoryTotals(s, m, ks[1..]);
    }
  }

  /** The values of the per-category map, taken once per key in any order,
      add up to the header total. */
  lemma CategoryTotalsAddUp(s: seq<Expense>, m: map<string, int>, ks: seq<string>)
    requires m.Keys == CategoriesOf(s)
    requires forall c :: c in m ==> m[c] == SumAmounts(OfCategory(s, c))
    requires NoDuplicates(ks) && forall k :: k in ks <==> k in m
    ensures SumAt(m, ks) == TotalInPaise(Some(s))
  {
    SumAtCategoryTotals(s, m, ks);
    CategorySumsCoverTotal(s, ks);
  }

  // ---------------------------------------------------------------------
  // The add-expense form

  /** The amount field as the paise it stands for: `None` when the field is
      empty or does not hold a number. */
  type AmountField = Option<int>

  /** The handler's validation: a number, and greater than zero. */
  predicate IsAcceptedAmount(amount: AmountField) {
    amount.Some? && amount.value > 0
  }

  /** `CATEGORIES[0]`, the category the form starts with. */
  const DefaultCategory: string := "Food"

  /** The form's state variables.  `issuedKeys` records every key the key
      generator has produced for this form. */
  class SubmitForm {
    var amount: AmountField
    var category: string
    var description: string
    var date: string
    var isSubmitting: bool
    var idempKey: string
    ghost var issuedKeys: set<string>

    ghost predicate Valid()
      reads this
    {
      idempKey in issuedKeys
    }

    /** The page after mounting: the initial state values, with the first key
        already generated.  `today` stands for the clock. */
    constructor (firstKey: string, today: string)
      ensures Valid() && issuedKeys == {firstKey}
      ensures amount == None && category == DefaultCategory && description == "" && date == today
      ensures !isSubmitting && idempKey == firstKey
    {
      amount := None;
      category := DefaultCategory;
      description := "";
      date := today;
      isSubmitting := false;
      idempKey := firstKey;
      issuedKeys := {firstKey};
    }

    /** The handler up to the create call.  While a submission is in flight,
        or when the amount is not a positive number, it does nothing at all;
        otherwise it marks the form as submitting and returns the arguments of
        the create call, which carry the current key. */
    method Submit() returns (request: Option<CreateArgs>)
      requires Valid()
      modifies this
      ensures Valid()
      ensures old(isSubmitting) || !IsAcceptedAmount(old(amount)) ==> request.None? && unchanged(this)
      ensures !old(isSubmitting) && IsAcceptedAmount(old(amount)) ==>
                && amount == old(amount) && category == old(category) && description == old(description)
                && request == Some(CreateArgs(amount.value, category, description, date, idempKey))
                && isSubmitting
                && date == old(date) && idempKey == old(idempKey) && issuedKeys == old(issuedKeys)
    {
      if isSubmitting {
        return None;
      }
      if !IsAcceptedAmount(amount) {
        return None;
      }
      isSubmitting := true;
      request := Some(CreateArgs(amount.value, category, description, date, idempKey));
    }

    /** The handler after the create call settles.  On success the amount
        and description are cleared and a fresh key replaces the used one; on
        failure nothing but the in-flight flag changes, so a retry carries the
        same key.  Either way the form stops submitting.  `freshKey` is the
        key generator's next value, one it has never produced before. */
    method Settle(succeeded: bool, freshKey: string)
      requires Valid() && isSubmitting
      requires freshKey !in issuedKeys
      modifies this
      ensures Valid() && !isSubmitting
      ensures category == old(category) && date == old(date)
      ensures succeeded ==>
                && amount == None && description == ""
                && idempKey == freshKey && idempKey != old(idempKey)
                && issuedKeys == old(issuedKeys) + {freshKey}
      ensures !succeeded ==>
                && amount == old(amount) && description == old(description)
                && idempKey == old(idempKey) && issuedKeys == old(issuedKeys)
    {
      if succeeded {
        amount := None;
        description := "";
        idempKey := freshKey;
        issuedKeys := issuedKeys + {freshKey};
      }
      isSubmitting := false;
    }
  }

  /** How a create call ends for the client: the server answered, the
      request never arrived, or the server committed but the answer was lost. */
  datatype Delivery = Delivered | RequestLost | ResponseLost

  /** One submission from click to settlement against the store. */
  method HandleSubmit(form: SubmitForm, store: ExpenseStore, delivery: Delivery, freshKey: string)
    returns (saved: bool)
    requires form.Valid() && store.Valid()
    requires freshKey !in form.issuedKeys
    modifies form, store
    ensures form.Valid() && store.Valid()
    ensures old(form.isSubmitting) || !IsAcceptedAmount(old(form.amount)) ==>
              !saved && unchanged(form) && unchanged(store)
    ensures !old(form.isSubmitting) && IsAcceptedAmount(old(form.amount)) ==>
              var args := CreateArgs(old(form.amount).value, old(form.category), old(form.description),
                                     old(form.date), old(form.idempKey));
              && saved == (delivery == Delivered)
              && store.Snapshot() == (if delivery == RequestLost then old(store.Snapshot())
                                      else CreateOn(old(store.Snapshot()), args).table)
              && !form.isSubmitting
              && form.idempKey == (if saved then freshKey else old(form.idempKey))
              && form.amount == (if saved then None else old(form.amount))
              && form.description == (if saved then "" else old(form.description))
              && form.category == old(form.category) && form.date == old(form.date)
              && form.issuedKeys == (if saved then old(form.issuedKeys) + {freshKey} else old(form.issuedKeys))
  {
    var request := form.Submit();
    if request.None? {
      return false;
    }
    if delivery != RequestLost {
      var _ := store.Create(request.value);
    }
    saved := delivery == Delivered;
    form.Settle(saved, freshKey);
  }

  /** A submission whose answer is lost, followed by the user's retry: the
      retry carries the same key, so the store holds what one create call
      would have left, however the first attempt ended. */
  method RetryAfterLostResponse(form: SubmitForm, store: ExpenseStore, freshKey: string)
    requires form.Valid() && store.Valid()
    requires !form.isSubmitting && IsAcceptedAmount(form.amount)
    requires freshKey !in form.issuedKeys
    modifies form, store
    ensures var args := CreateArgs(old(form.amount).value, old(form.category), old(form.description),
                                   old(form.date), old(form.idempKey));
            store.Snapshot() == CreateOn(old(store.Snapshot()), args).table
    ensures |store.records| <= |old(store.records)| + 1
    ensures form.idempKey == freshKey
  {
    ghost var args := CreateArgs(form.amount.value, form.category, form.description, form.date, form.idempKey);
    var first := HandleSubmit(form, store, ResponseLost, freshKey);
    var retry := HandleSubmit(form, store, Delivered, freshKey);
    CreateTwiceSameKey(old(store.Snapshot()), args, args);
  }
}
