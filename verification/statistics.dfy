/** `get_stats`: the total of all amounts, the per-category sums, and the
    record count, as the dict `get_stats` builds them. Python dicts keep
    insertion order, so the categories are in order of first appearance;
    `jsonify` later sorts the keys, which is outside this model. */
module Statistics {
  import opened Expenses

  /** One `by_category` entry: a category and the running sum of its amounts. */
  datatype Entry = Entry(category: string, sum: real)

  /** The values `get_stats` computes, before `jsonify` encodes them. */
  datatype Summary = Summary(total: real, byCategory: seq<Entry>, recentCount: nat)

  /** The keys of an ordered category map, in order. */
  function Keys(acc: seq<Entry>): seq<string> {
    seq(|acc|, i requires 0 <= i < |acc| => acc[i].category)
  }

  /** Python's `sum(...)`: amounts added left to right, starting from 0. */
  function Total(xs: seq<Expense>): real {
    if |xs| == 0 then 0.0 else Total(xs[..|xs| - 1]) + xs[|xs| - 1].amount
  }

  /** Reference definition: the sum of the amounts of the records in category `c`. */
  function CategorySum(xs: seq<Expense>, c: string): real {
    if |xs| == 0 then 0.0
    else CategorySum(xs[..|xs| - 1], c) + (if xs[|xs| - 1].category == c then xs[|xs| - 1].amount else 0.0)
  }

  /** The sum of the values of an ordered category map. */
  function SumEntries(acc: seq<Entry>): real {
    if |acc| == 0 then 0.0 else acc[0].sum + SumEntries(acc[1..])
  }

  /** `by_category[c] = by_category.get(c, 0) + a`: an existing key keeps its
      position and grows by `a`; a new key goes at the end with value `a`.
      Either way the values grow in total by exactly `a`. */
  function Bump(acc: seq<Entry>, c: string, a: real): (r: seq<Entry>)
    ensures Keys(r) == if c in Keys(acc) then Keys(acc) else Keys(acc) + [c]
    ensures SumEntries(r) == SumEntries(acc) + a
  {
    if |acc| == 0 then
      assert SumEntries([Entry(c, 0.0 + a)]) == a + SumEntries([]);
      [Entry(c, 0.0 + a)]
    else
      KeysCons(acc[0], acc[1..]);
      assert acc == [acc[0]] + acc[1..];
      if acc[0].category == c then
        var r := [Entry(c, acc[0].sum + a)] + acc[1..];
        KeysCons(r[0], acc[1..]);
        assert r[1..] == acc[1..];
        r
      else
        var rest := Bump(acc[1..], c, a);
        var r := [acc[0]] + rest;
        KeysCons(acc[0], rest);
        assert r[1..] == rest;
        r
  }

  /** The `for expense in expenses` loop that builds `by_category`: its keys
      are distinct and are exactly the categories present, and its values add
      up to the total. */
  function ByCategory(xs: seq<Expense>): (r: seq<Entry>)
    ensures Distinct(Keys(r))
    ensures forall c :: c in Keys(r) <==> c in Categories(xs)
    ensures SumEntries(r) == Total(xs)
  {
    if |xs| == 0 then []
    else
      CategoriesSnoc(xs);
      Bump(ByCategory(xs[..|xs| - 1]), xs[|xs| - 1].category, xs[|xs| - 1].amount)
  }

  /** `get_stats`, including its early return for an empty collection. For
      every collection, the empty one included: the count is the number of
      records; the total is the sum of all amounts and also the sum of the
      per-category values; the categories are distinct, are exactly those
      present, appear in first-appearance order, and each carries the sum of
      its own amounts. */
  function Stats(xs: seq<Expense>): (s: Summary)
    ensures s.recentCount == |xs|
    ensures s.total == Total(xs)
    ensures s.total == SumEntries(s.byCategory)
    ensures Distinct(Keys(s.byCategory))
    ensures forall c :: c in Keys(s.byCategory) <==> c in Categories(xs)
    ensures FirstAppearanceOrder(Keys(s.byCategory), Categories(xs))
    ensures forall k :: 0 <= k < |s.byCategory| ==>
      s.byCategory[k].sum == CategorySum(xs, s.byCategory[k].category)
  {
    ByCategoryOrder(xs);
    ByCategorySums(xs);
    if |xs| == 0 then Summary(0.0, [], 0)
    else Summary(Total(xs), ByCategory(xs), |xs|)
  }

  // ---------------------------------------------------------------------
  // One step of the loop

  lemma KeysCons(e: Entry, acc: seq<Entry>)
    ensures Keys([e] + acc) == [e.category] + Keys(acc)
  {
  }

  /** A bump adds `a` to the value of key `c` and to no other value. */
  lemma {:induction false} BumpSums(acc: seq<Entry>, c: string, a: real)
    requires Distinct(Keys(acc))
    ensures forall k :: 0 <= k < |acc| ==>
      Bump(acc, c, a)[k].sum == acc[k].sum + (if acc[k].category == c then a else 0.0)
  {
    if |acc| != 0 {
      var r := Bump(acc, c, a);
      KeysCons(acc[0], acc[1..]);
      assert acc == [acc[0]] + acc[1..];
      DistinctCons(acc[0].category, Keys(acc[1..]));
      if acc[0].category == c {
        assert r == [Entry(c, acc[0].sum + a)] + acc[1..];
        forall k | 1 <= k < |acc| ensures acc[k].category != c {
          assert acc[k].category == Keys(acc[1..])[k - 1];
        }
      } else {
        var rest := Bump(acc[1..], c, a);
        assert r == [acc[0]] + rest;
        BumpSums(acc[1..], c, a);
        forall k | 1 <= k < |acc|
          ensures r[k].sum == acc[k].sum + (if acc[k].category == c then a else 0.0)
        {
          assert r[k] == rest[k - 1] && acc[k] == acc[1..][k - 1];
        }
      }
    }
  }

  /** A category not yet present enters at the end with value `a`. */
  lemma {:induction false} BumpNew(acc: seq<Entry>, c: string, a: real)
    requires c !in Keys(acc)
    ensures |Bump(acc, c, a)| == |acc| + 1 && Bump(acc, c, a)[|acc|] == Entry(c, a)
  {
    if |acc| != 0 {
      KeysCons(acc[0], acc[1..]);
      assert acc == [acc[0]] + acc[1..];
      var rest := Bump(acc[1..], c, a);
      assert Bump(acc, c, a) == [acc[0]] + rest;
      BumpNew(acc[1..], c, a);
    }
  }

  // ---------------------------------------------------------------------
  // The whole loop

  lemma CategoriesSnoc(xs: seq<Expense>)
    requires |xs| > 0
    ensures Categories(xs) == Categories(xs[..|xs| - 1]) + [xs[|xs| - 1].category]
  {
  }

  /** A category that no record has sums to nothing. */
  lemma {:induction false} CategorySumAbsent(xs: seq<Expense>, c: string)
    requires c !in Categories(xs)
    ensures CategorySum(xs, c) == 0.0
  {
    if |xs| != 0 {
      CategoriesSnoc(xs);
      CategorySumAbsent(xs[..|xs| - 1], c);
    }
  }

  /** Every key of `ks` sits earlier in `cs` than the keys after it. */
  predicate FirstAppearanceOrder(ks: seq<string>, cs: seq<string>) {
    forall i, j :: 0 <= i < j < |ks| ==> IndexOf(cs, ks[i]) < IndexOf(cs, ks[j])
  }

  /** One loop step keeps the keys in first-appearance order. */
  lemma OrderStep(ks: seq<string>, cs: seq<string>, c: string)
    requires FirstAppearanceOrder(ks, cs)
    requires forall k :: k in ks ==> k in cs
    requires c !in ks ==> c !in cs
    ensures FirstAppearanceOrder(if c in ks then ks else ks + [c], cs + [c])
  {
    var ks' := if c in ks then ks else ks + [c];
    forall k | k in ks ensures IndexOf(cs + [c], k) == IndexOf(cs, k) < |cs| {
      IndexOfAppend(cs, [c], k);
    }
    if c !in ks {
      IndexOfAppend(cs, [c], c);
      assert IndexOf(cs + [c], c) == |cs|;
    }
    forall i, j | 0 <= i < j < |ks'| ensures IndexOf(cs + [c], ks'[i]) < IndexOf(cs + [c], ks'[j]) {
      assert ks'[i] in ks;
      if j < |ks| {
        assert ks'[j] in ks;
      }
    }
  }

  /** The keys of `by_category` appear in the order in which their categories
      first occur among the records. */
  lemma {:induction false} ByCategoryOrder(xs: seq<Expense>)
    ensures FirstAppearanceOrder(Keys(ByCategory(xs)), Categories(xs))
  {
    if |xs| != 0 {
      var init, e := xs[..|xs| - 1], xs[|xs| - 1];
      ByCategoryOrder(init);
      CategoriesSnoc(xs);
      OrderStep(Keys(ByCategory(init)), Categories(init), e.category);
    }
  }

  /** Each value of `by_category` is the sum of the amounts in its category. */
  lemma {:induction false} ByCategorySums(xs: seq<Expense>)
    ensures forall k :: 0 <= k < |ByCategory(xs)| ==>
      ByCategory(xs)[k].sum == CategorySum(xs, ByCategory(xs)[k].category)
  {
    if |xs| != 0 {
      var init, e := xs[..|xs| - 1], xs[|xs| - 1];
      var acc, r := ByCategory(init), ByCategory(xs);
      ByCategorySums(init);
      BumpSums(acc, e.category, e.amount);
      if e.category !in Keys(acc) {
        BumpNew(acc, e.category, e.amount);
      }
      forall k | 0 <= k < |r| ensures r[k].sum == CategorySum(xs, r[k].category) {
        if k < |acc| {
          assert r[k].category == Keys(r)[k] == Keys(acc)[k] == acc[k].category;
          assert r[k].sum == acc[k].sum + (if acc[k].category == e.category then e.amount else 0.0);
          assert acc[k].sum == CategorySum(init, acc[k].category);
          assert CategorySum(xs, acc[k].category) == CategorySum(init, acc[k].category) + (if e.category == acc[k].category then e.amount else 0.0);
        } else {
          assert e.category !in Keys(acc);
          assert r[k] == Entry(e.category, e.amount);
          assert e.category !in Categories(init);
          CategorySumAbsent(init, e.category);
          assert CategorySum(xs, e.category) == CategorySum(init, e.category) + e.amount;
        }
      }
    }
  }

  // ---------------------------------------------------------------------
  // The endpoint

  /** The early return for an empty collection gives what the general
      formula would have given. */
  lemma StatsEmpty()
    ensures Stats([]) == Summary(0.0, [], 0)
    ensures Stats([]) == Summary(Total([]), ByCategory([]), 0)
  {
  }

  /** Appending a record raises the total by its amount, the count by one,
      and the `by_category` value of its category by its amount over that
      category's sum before (zero when the category is new). */
  lemma StatsAppend(xs: seq<Expense>, e: Expense)
    ensures Stats(xs + [e]).total == Stats(xs).total + e.amount
    ensures Stats(xs + [e]).recentCount == Stats(xs).recentCount + 1
    ensures var b := Stats(xs + [e]).byCategory;
      && IndexOf(Keys(b), e.category) < |b|
      && b[IndexOf(Keys(b), e.category)].sum == CategorySum(xs, e.category) + e.amount
  {
    var ys := xs + [e];
    assert ys[..|xs|] == xs;
    assert Total(ys) == Total(xs) + e.amount;
    assert Categories(ys)[|xs|] == e.category;
    var b := Stats(ys).byCategory;
    var i := IndexOf(Keys(b), e.category);
    assert b[i].category == Keys(b)[i] == e.category;
  }

  /** The total is additive: the total of two lists joined is the sum of
      their totals. */
  lemma {:induction false} TotalConcat(a: seq<Expense>, b: seq<Expense>)
    ensures Total(a + b) == Total(a) + Total(b)
    decreases |b|
  {
    if |b| != 0 {
      var b' := b[..|b| - 1];
      assert (a + b)[..|a + b| - 1] == a + b';
      TotalConcat(a, b');
    } else {
      assert a + b == a;
    }
  }

  /** Three records, two categories: total 35, food 15 then transport 20, count 3. */
  lemma StatsExample()
    ensures var xs := [Expense(1, "lunch", 10.0, "food", "2024-01-01"),
                       Expense(2, "snack", 5.0, "food", "2024-01-02"),
                       Expense(3, "bus", 20.0, "transport", "2024-01-02")];
      Stats(xs) == Summary(35.0, [Entry("food", 15.0), Entry("transport", 20.0)], 3)
  {
    var xs := [Expense(1, "lunch", 10.0, "food", "2024-01-01"),
               Expense(2, "snack", 5.0, "food", "2024-01-02"),
               Expense(3, "bus", 20.0, "transport", "2024-01-02")];
    assert xs[..2][..1] == xs[..1];
    assert xs[..1][..0] == [];
    assert Total(xs[..1]) == 10.0;
    assert Total(xs[..2]) == 15.0;
    assert Total(xs) == 35.0;
    assert ByCategory(xs[..1]) == [Entry("food", 10.0)];
    assert ByCategory(xs[..2]) == [Entry("food", 15.0)];
    assert "food" != "transport";
    assert Bump([Entry("food", 15.0)], "transport", 20.0) == [Entry("food", 15.0), Entry("transport", 20.0)];
  }
}
