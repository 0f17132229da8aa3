/** The ledger as a sequence of requests: each mutating request loads the
    collection, changes it and saves it, unless it raises first, in which
    case the file keeps what it had. Also what the `len + 1` id rule does and
    does not guarantee over such a sequence. */
module Requests {
  import opened Expenses
  import opened Ledger

  /** A mutating request with its JSON body decoded. `today` is the server's
      calendar day at the moment the create is served. */
  datatype Request =
    | Create(description: string, amount: ParsedAmount, category: string, date: Option<string>, today: string)
    | Remove(id: int)
    | Edit(id: int, patch: Patch)

  /** The collection on file after serving `req` against `xs`. A create adds
      at most one record, at the end, and adds one exactly when its amount
      parses; an update keeps the length and every id; after a delete no
      record has the deleted id. */
  function Handle(xs: seq<Expense>, req: Request): (r: seq<Expense>)
    ensures req.Create? ==> xs <= r && (|r| == |xs| + 1 <==> req.amount.Parsed?) && |r| <= |xs| + 1
    ensures req.Create? && req.amount.Parsed? ==> r[|xs|].id == |xs| + 1
    ensures req.Edit? ==> |r| == |xs| && Ids(r) == Ids(xs)
    ensures req.Remove? ==> req.id !in Ids(r) && |r| <= |xs|
  {
    match req
    case Create(description, amount, category, date, today) =>
      (match Add(xs, description, amount, category, date, today)
       case Ok(added) => added.store
       case Err(_) => xs)
    case Remove(id) => Delete(xs, id)
    case Edit(id, patch) =>
      (match Update(xs, id, patch)
       case Ok(ys) => UpdateFrame(xs, id, patch); ys
       case Err(_) => xs)
  }

  /** Requests served one after another, each against what the previous one
      saved. Every record added comes from a create whose amount parsed. */
  function Run(xs: seq<Expense>, reqs: seq<Request>): (r: seq<Expense>)
    ensures |r| <= |xs| + ValidCreates(reqs)
    decreases |reqs|
  {
    if |reqs| == 0 then xs else Run(Handle(xs, reqs[0]), reqs[1..])
  }

  /** The number of creates whose amount parses. */
  function ValidCreates(reqs: seq<Request>): nat {
    if |reqs| == 0 then 0
    else (if reqs[0].Create? && reqs[0].amount.Parsed? then 1 else 0) + ValidCreates(reqs[1..])
  }

  /** The records carry ids 1, 2, ..., n in the order they are stored. */
  predicate Numbered(xs: seq<Expense>) {
    forall i :: 0 <= i < |xs| ==> xs[i].id == i + 1
  }

  /** A create whose amount does not parse raises before the append and the
      save: the file keeps the collection it had. */
  lemma InvalidAmountOnCreate(xs: seq<Expense>, req: Request)
    requires req.Create? && req.amount == Unparsable
    ensures Add(xs, req.description, req.amount, req.category, req.date, req.today).Err?
    ensures Handle(xs, req) == xs
  {
  }

  /** An update whose amount does not parse raises, and saves nothing, exactly
      when some record has the id: the amount is only parsed inside the
      matching branch, so with no match the update succeeds unchanged. */
  lemma InvalidAmountOnUpdate(xs: seq<Expense>, req: Request)
    requires req.Edit? && req.patch.amount == Some(Unparsable)
    ensures Update(xs, req.id, req.patch).Err? <==> req.id in Ids(xs)
    ensures Handle(xs, req) == xs
  {
  }

  /** Serving one create or update keeps the ids numbered 1..n. */
  lemma HandleKeepsNumbered(xs: seq<Expense>, req: Request)
    requires Numbered(xs)
    requires !req.Remove?
    ensures Numbered(Handle(xs, req))
  {
  }

  /** Without deletes, the ids stay 1..n in storage order, and hence distinct. */
  lemma {:induction false} RunWithoutRemoveKeepsNumbered(xs: seq<Expense>, reqs: seq<Request>)
    requires Numbered(xs)
    requires forall k :: 0 <= k < |reqs| ==> !reqs[k].Remove?
    ensures Numbered(Run(xs, reqs))
    ensures Distinct(Ids(Run(xs, reqs)))
    decreases |reqs|
  {
    if |reqs| != 0 {
      HandleKeepsNumbered(xs, reqs[0]);
      RunWithoutRemoveKeepsNumbered(Handle(xs, reqs[0]), reqs[1..]);
    }
  }

  /** Creates alone only append: what was stored stays in front, in order,
      and each create whose amount parses adds exactly one record. Starting
      from an empty file the ids are then 1, ..., n, one per valid create. */
  lemma {:induction false} CreatesOnlyAppend(xs: seq<Expense>, reqs: seq<Request>)
    requires forall k :: 0 <= k < |reqs| ==> reqs[k].Create?
    ensures xs <= Run(xs, reqs)
    ensures |Run(xs, reqs)| == |xs| + ValidCreates(reqs)
    ensures xs == [] ==> Ids(Run(xs, reqs)) == seq(ValidCreates(reqs), i => i + 1)
    decreases |reqs|
  {
    if |reqs| != 0 {
      CreatesOnlyAppend(Handle(xs, reqs[0]), reqs[1..]);
    }
    if xs == [] {
      RunWithoutRemoveKeepsNumbered(xs, reqs);
    }
  }

  /** The id rule can hand out an id that is still in use: with records 1
      and 2 on file, deleting record 1 and creating another stores two
      records with id 2. */
  lemma DuplicateIdAfterRemove()
    ensures var xs := Run([], [Create("rent", Parsed(500.0), "home", None, "2024-03-01"),
                               Create("bus", Parsed(2.5), "transport", None, "2024-03-01"),
                               Remove(1),
                               Create("tea", Parsed(3.0), "food", None, "2024-03-02")]);
      Ids(xs) == [2, 2] && !Distinct(Ids(xs))
  {
    var a := Create("rent", Parsed(500.0), "home", None, "2024-03-01");
    var b := Create("bus", Parsed(2.5), "transport", None, "2024-03-01");
    var c := Create("tea", Parsed(3.0), "food", None, "2024-03-02");
    var reqs := [a, b, Remove(1), c];
    var x1 := Handle([], a);
    var x2 := Handle(x1, b);
    var x3 := Handle(x2, Remove(1));
    var x4 := Handle(x3, c);
    assert x2 == [Expense(1, "rent", 500.0, "home", "2024-03-01"), Expense(2, "bus", 2.5, "transport", "2024-03-01")];
    assert x3 == [Expense(2, "bus", 2.5, "transport", "2024-03-01")];
    assert x4 == x3 + [Expense(2, "tea", 3.0, "food", "2024-03-02")];
    assert reqs[1..] == [b, Remove(1), c] && reqs[1..][1..] == [Remove(1), c] && reqs[1..][1..][1..] == [c];
    assert Run(x3, [c]) == Run(x4, []) == x4;
    assert Run([], reqs) == Run(x1, [b, Remove(1), c]) == Run(x2, [Remove(1), c]) == Run(x3, [c]);
    assert Ids(x4)[0] == Ids(x4)[1];
  }

  /** From ids 1, 2, deleting the newest record and creating another gives
      the new record the deleted one's id: no two stored records share it,
      but the id now names a different expense. */
  lemma StaleIdAfterRemovingNewest()
    ensures var xs := Run([], [Create("rent", Parsed(500.0), "home", None, "2024-03-01"),
                               Create("bus", Parsed(2.5), "transport", None, "2024-03-01"),
                               Remove(2),
                               Create("tea", Parsed(3.0), "food", None, "2024-03-02")]);
      Ids(xs) == [1, 2] && xs[1].description == "tea"
  {
  }

  /** The records left by four creates and a delete of id 1, with ids 2, 3
      and 4, and a further create request. */
  const Bus := Expense(2, "bus", 2.5, "transport", "d")
  const Tea := Expense(3, "tea", 3.0, "food", "d")
  const Gym := Expense(4, "gym", 30.0, "health", "d")
  const Cab := Create("cab", Parsed(9.0), "transport", None, "d")

  /** Four creates and a delete of id 1 leave the distinct ids 2, 3, 4. */
  lemma GapAfterRemovingOldest()
    ensures Handle(Handle(Handle(Handle(Handle([], Create("rent", Parsed(500.0), "home", None, "d")),
                                               Create("bus", Parsed(2.5), "transport", None, "d")),
                                        Create("tea", Parsed(3.0), "food", None, "d")),
                                 Create("gym", Parsed(30.0), "health", None, "d")),
                   Remove(1))
            == [Bus, Tea, Gym]
  {
    var rent := Expense(1, "rent", 500.0, "home", "d");
    assert Handle([], Create("rent", Parsed(500.0), "home", None, "d")) == [rent];
    assert Handle([rent], Create("bus", Parsed(2.5), "transport", None, "d")) == [rent, Bus];
    assert Handle([rent, Bus], Create("tea", Parsed(3.0), "food", None, "d")) == [rent, Bus, Tea];
    assert Handle([rent, Bus, Tea], Create("gym", Parsed(30.0), "health", None, "d")) == [rent, Bus, Tea, Gym];
    assert [rent, Bus, Tea, Gym] == [rent] + [Bus, Tea, Gym];
    DeleteAppend([rent], [Bus, Tea, Gym], 1);
    DeleteAbsent([Bus, Tea, Gym], 1);
  }

  /** Deleting id 4 from ids 2, 3, 4 removes the newest record only. */
  lemma RemoveNewestFromGap()
    ensures Handle([Bus, Tea, Gym], Remove(4)) == [Bus, Tea]
  {
    assert [Bus, Tea, Gym] == [Bus, Tea] + [Gym];
    DeleteAppend([Bus, Tea], [Gym], 4);
    DeleteAbsent([Bus, Tea], 4);
  }

  /** Once an earlier delete has left a gap (ids 2, 3, 4, as above),
      deleting the newest record and creating again no longer keeps the ids
      distinct: the new record takes id 3, which is still in use. */
  lemma DuplicateAfterRemovingNewestWithGap()
    ensures var ys := Handle(Handle([Bus, Tea, Gym], Remove(4)), Cab);
      Distinct(Ids([Bus, Tea, Gym])) && Ids(ys) == [2, 3, 3] && !Distinct(Ids(ys))
  {
    RemoveNewestFromGap();
    var ys := Handle([Bus, Tea], Cab);
    assert ys == [Bus, Tea, Expense(3, "cab", 9.0, "transport", "d")];
    assert Ids([Bus, Tea, Gym]) == [2, 3, 4];
    assert Ids(ys) == [2, 3, 3];
    assert Ids(ys)[1] == Ids(ys)[2];
  }

  /** A record of a numbered collection other than the first `k - 1` has an id
      above `k - 1`, so id `k` is absent from the records before and after
      position `k - 1`. */
  lemma NumberedSlices(xs: seq<Expense>, k: int)
    requires Numbered(xs)
    requires 1 <= k <= |xs|
    ensures k !in Ids(xs[..k - 1])
    ensures k !in Ids(xs[k..])
  {
    var pre, post := xs[..k - 1], xs[k..];
    forall i | 0 <= i < |pre| ensures Ids(pre)[i] != k {
      assert pre[i] == xs[i];
    }
    forall i | 0 <= i < |post| ensures Ids(post)[i] != k {
      assert post[i] == xs[k + i];
    }
  }

  /** In a collection numbered 1..n, deleting id `k` removes exactly the
      record at position `k - 1`. */
  lemma DeleteFromNumbered(xs: seq<Expense>, k: int)
    requires Numbered(xs)
    requires 1 <= k <= |xs|
    ensures Delete(xs, k) == xs[..k - 1] + xs[k..]
  {
    var pre, mid, post := xs[..k - 1], [xs[k - 1]], xs[k..];
    assert xs == (pre + mid) + post;
    assert Delete(pre, k) == pre && Delete(post, k) == post by {
      NumberedSlices(xs, k);
      DeleteAbsent(pre, k);
      DeleteAbsent(post, k);
    }
    assert Delete(mid, k) == [];
    assert Delete(pre + mid, k) == pre by {
      DeleteAppend(pre, mid, k);
    }
    assert Delete((pre + mid) + post, k) == pre + post by {
      DeleteAppend(pre + mid, post, k);
    }
  }

  /** The general form of the duplicate: in any collection numbered 1..n,
      deleting any record but the newest and then creating one stores two
      records with id n, the newest old record and the new one. */
  lemma DuplicateIdAfterRemoveAny(xs: seq<Expense>, k: int, description: string, amount: real,
                                  category: string, date: Option<string>, today: string)
    requires Numbered(xs)
    requires 1 <= k < |xs|
    ensures var ys := Handle(Handle(xs, Remove(k)), Create(description, Parsed(amount), category, date, today));
      && |ys| == |xs|
      && ys[|xs| - 2].id == |xs| && ys[|xs| - 1].id == |xs|
      && ys[|xs| - 2] == xs[|xs| - 1] && ys[|xs| - 1].description == description
      && !Distinct(Ids(ys))
  {
    DeleteFromNumbered(xs, k);
    var d := Delete(xs, k);
    assert |d| == |xs| - 1;
    assert d[|d| - 1] == xs[|xs| - 1];
    var ys := Handle(d, Create(description, Parsed(amount), category, date, today));
    assert ys[..|d|] == d;
    assert ys[|xs| - 2] == d[|d| - 1];
    assert Ids(ys)[|xs| - 2] == Ids(ys)[|xs| - 1];
  }

  /** Deleting the newest record and then creating one keeps the ids 1..n,
      and hence distinct: the new record takes the deleted one's id. From
      an empty collection the delete finds nothing and the create gets id 1. */
  lemma RemoveNewestThenCreate(xs: seq<Expense>, description: string, amount: real,
                               category: string, date: Option<string>, today: string)
    requires Numbered(xs)
    ensures var ys := Handle(Handle(xs, Remove(|xs|)), Create(description, Parsed(amount), category, date, today));
      && Numbered(ys)
      && Distinct(Ids(ys))
      && |ys| == if |xs| == 0 then 1 else |xs|
  {
    var d := Delete(xs, |xs|);
    if |xs| == 0 {
      assert d == [];
    } else {
      DeleteFromNumbered(xs, |xs|);
      assert d == xs[..|xs| - 1];
    }
    assert Numbered(d);
    var ys := Handle(d, Create(description, Parsed(amount), category, date, today));
    assert Numbered(ys);
    forall i, j | 0 <= i < j < |ys| ensures Ids(ys)[i] != Ids(ys)[j] {
      assert Ids(ys)[i] == i + 1 && Ids(ys)[j] == j + 1;
    }
  }
}
