/** The three mutating handlers of the expense ledger, with the load/save
    wrapper removed: each takes the loaded collection and yields the one to
    be saved (or the error that stops the save). */
module Ledger {
  import opened Expenses

  /** What a successful create produces: the collection to save and the new record. */
  datatype Added = Added(store: seq<Expense>, created: Expense)

  /** `add_expense`: the new record takes id `|xs| + 1` and the supplied date,
      or `today` when the request has none. A failed amount parse raises
      before anything is appended. */
  function Add(xs: seq<Expense>, description: string, amount: ParsedAmount, category: string,
               date: Option<string>, today: string): (r: Result<Added>)
    ensures r.Err? <==> amount.Unparsable?
    ensures r.Ok? ==> r.value.store == xs + [r.value.created]
    ensures r.Ok? ==> r.value.created.id == |xs| + 1
    ensures r.Ok? ==> && r.value.created.description == description
                      && r.value.created.amount == amount.value
                      && r.value.created.category == category
    ensures r.Ok? && date.Some? ==> r.value.created.date == date.value
    ensures r.Ok? && date.None? ==> r.value.created.date == today
  {
    match amount
    case Unparsable => Err(InvalidAmount)
    case Parsed(v) =>
      var e := Expense(|xs| + 1, description, v, category, date.GetOr(today));
      Ok(Added(xs + [e], e))
  }

  /** `delete_expense`: keeps exactly the records whose id differs from `id`. */
  function Delete(xs: seq<Expense>, id: int): (r: seq<Expense>)
    ensures forall e :: e in r <==> e in xs && e.id != id
    ensures id !in Ids(r)
    ensures |r| <= |xs|
  {
    if |xs| == 0 then []
    else (if xs[0].id != id then [xs[0]] else []) + Delete(xs[1..], id)
  }

  /** The field assignments of `update_expense` on the matching record, in
      source order. Only the amount can fail; when it does, the whole update
      is abandoned, so the earlier description assignment is lost with it. */
  function Patched(e: Expense, patch: Patch): (r: Result<Expense>)
    ensures r.Err? <==> patch.amount == Some(Unparsable)
    ensures r.Ok? ==> r.value.id == e.id
    ensures r.Ok? && patch.description.None? ==> r.value.description == e.description
    ensures r.Ok? && patch.description.Some? ==> r.value.description == patch.description.value
    ensures r.Ok? && patch.amount.None? ==> r.value.amount == e.amount
    ensures r.Ok? && patch.amount.Some? ==> r.value.amount == patch.amount.value.value
    ensures r.Ok? && patch.category.None? ==> r.value.category == e.category
    ensures r.Ok? && patch.category.Some? ==> r.value.category == patch.category.value
    ensures r.Ok? && patch.date.None? ==> r.value.date == e.date
    ensures r.Ok? && patch.date.Some? ==> r.value.date == patch.date.value
  {
    var description := patch.description.GetOr(e.description);
    match patch.amount.GetOr(Parsed(e.amount))
    case Unparsable => Err(InvalidAmount)
    case Parsed(amount) =>
      Ok(e.(description := description, amount := amount,
            category := patch.category.GetOr(e.category), date := patch.date.GetOr(e.date)))
  }

  /** `update_expense`: walks the records in order and patches the first one
      whose id matches, then stops (the loop's `break`). With no match nothing
      is parsed and the collection comes back as it was. */
  function Update(xs: seq<Expense>, id: int, patch: Patch): (r: Result<seq<Expense>>)
    ensures var i := IndexOf(Ids(xs), id);
      r.Err? <==> i < |xs| && Patched(xs[i], patch).Err?
    ensures IndexOf(Ids(xs), id) == |xs| ==> r == Ok(xs)
    ensures var i := IndexOf(Ids(xs), id);
      r.Ok? && i < |xs| ==> r.value == xs[i := Patched(xs[i], patch).value]
  {
    if |xs| == 0 then Ok([])
    else if xs[0].id == id then
      match Patched(xs[0], patch)
      case Err(err) => Err(err)
      case Ok(e) => Ok([e] + xs[1..])
    else
      assert Ids(xs) == [xs[0].id] + Ids(xs[1..]);
      assert xs == [xs[0]] + xs[1..];
      match Update(xs[1..], id, patch)
      case Err(err) => Err(err)
      case Ok(rest) => Ok([xs[0]] + rest)
  }

  // ---------------------------------------------------------------------
  // Delete

  /** Deletion works record by record: deleting from a concatenation is the
      concatenation of the deletions, so survivors keep their relative order. */
  lemma {:induction false} DeleteAppend(a: seq<Expense>, b: seq<Expense>, id: int)
    ensures Delete(a + b, id) == Delete(a, id) + Delete(b, id)
  {
    if |a| == 0 {
      assert a + b == b;
    } else {
      assert (a + b)[1..] == a[1..] + b;
      DeleteAppend(a[1..], b, id);
    }
  }

  /** Deleting an id that no record has gives back the collection unchanged. */
  lemma {:induction false} DeleteAbsent(xs: seq<Expense>, id: int)
    requires id !in Ids(xs)
    ensures Delete(xs, id) == xs
  {
    if |xs| != 0 {
      assert xs[0].id == Ids(xs)[0];
      assert Ids(xs[1..]) == Ids(xs)[1..];
      DeleteAbsent(xs[1..], id);
    }
  }

  /** Deleting twice is deleting once. */
  lemma DeleteIdempotent(xs: seq<Expense>, id: int)
    ensures Delete(Delete(xs, id), id) == Delete(xs, id)
  {
    DeleteAbsent(Delete(xs, id), id);
  }

  /** Deleting keeps the ids of the survivors distinct when they were distinct. */
  lemma {:induction false} DeleteKeepsDistinct(xs: seq<Expense>, id: int)
    requires Distinct(Ids(xs))
    ensures Distinct(Ids(Delete(xs, id)))
  {
    if |xs| != 0 {
      var rest := Delete(xs[1..], id);
      assert Ids(xs) == [xs[0].id] + Ids(xs[1..]);
      DistinctCons(xs[0].id, Ids(xs[1..]));
      DeleteKeepsDistinct(xs[1..], id);
      if xs[0].id != id {
        if xs[0].id in Ids(rest) {
          DeleteIdsSubset(xs[1..], id, xs[0].id);
        }
        assert Delete(xs, id) == [xs[0]] + rest;
        assert Ids([xs[0]] + rest) == [xs[0].id] + Ids(rest);
        DistinctCons(xs[0].id, Ids(rest));
      } else {
        assert Delete(xs, id) == rest;
      }
    }
  }

  /** Every record keeps its id through a deletion: the ids that survive are
      among the ids that were there. */
  lemma DeleteIdsSubset(xs: seq<Expense>, id: int, k: int)
    requires k in Ids(Delete(xs, id))
    ensures k in Ids(xs) && k != id
  {
    var r := Delete(xs, id);
    var i :| 0 <= i < |r| && Ids(r)[i] == k;
    assert r[i] in xs;
    var j :| 0 <= j < |xs| && xs[j] == r[i];
    assert Ids(xs)[j] == k;
  }

  // ---------------------------------------------------------------------
  // Update

  /** An update keeps the number of records and every id, and changes no
      record other than the first one with a matching id. */
  lemma UpdateFrame(xs: seq<Expense>, id: int, patch: Patch)
    requires Update(xs, id, patch).Ok?
    ensures var ys := Update(xs, id, patch).value;
      && |ys| == |xs|
      && Ids(ys) == Ids(xs)
      && forall k :: 0 <= k < |xs| && k != IndexOf(Ids(xs), id) ==> ys[k] == xs[k]
  {
  }

  /** An update that names no field leaves the collection as it was. */
  lemma UpdateEmptyPatch(xs: seq<Expense>, id: int)
    ensures Update(xs, id, EmptyPatch) == Ok(xs)
  {
    var i := IndexOf(Ids(xs), id);
    if i < |xs| {
      assert Patched(xs[i], EmptyPatch).value == xs[i];
      assert xs[i := xs[i]] == xs;
    }
  }

  /** Sending the same update twice has the effect of sending it once. */
  lemma UpdateIdempotent(xs: seq<Expense>, id: int, patch: Patch)
    requires Update(xs, id, patch).Ok?
    ensures Update(Update(xs, id, patch).value, id, patch) == Update(xs, id, patch)
  {
  }

  // ---------------------------------------------------------------------
  // Add

  /** A create followed by a delete of the id it assigned gives back the
      collection, provided no record had that id before. */
  lemma DeleteUndoesAdd(xs: seq<Expense>, description: string, amount: real, category: string,
                        date: Option<string>, today: string)
    requires |xs| + 1 !in Ids(xs)
    ensures var added := Add(xs, description, Parsed(amount), category, date, today).value;
      Delete(added.store, added.created.id) == xs
  {
    var added := Add(xs, description, Parsed(amount), category, date, today).value;
    DeleteAppend(xs, [added.created], |xs| + 1);
    DeleteAbsent(xs, |xs| + 1);
    assert Delete([added.created], |xs| + 1) == [];
  }
}
