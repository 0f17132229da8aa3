/** The id rule as evidently intended: ids that stay unique across deletes.
    A counter saved beside the collection hands out each id once; creates
    otherwise build the same record as `add_expense`, and deletes and
    updates are unchanged. */
module FreshIds {
  import opened Expenses
  import opened Ledger
  import opened Requests

  /** The saved collection and the next id the counter will hand out. */
  datatype Store = Store(records: seq<Expense>, nextId: int)

  /** Ids are distinct and all below the counter. */
  predicate Valid(s: Store) {
    && Distinct(Ids(s.records))
    && forall k :: 0 <= k < |s.records| ==> s.records[k].id < s.nextId
  }

  /** A create that takes its id from the counter and advances it. */
  function AddFresh(s: Store, description: string, amount: ParsedAmount, category: string,
                    date: Option<string>, today: string): (r: Result<Store>)
    ensures r.Err? <==> amount.Unparsable?
    ensures r.Ok? ==> && r.value.nextId == s.nextId + 1
                      && |r.value.records| == |s.records| + 1
                      && r.value.records[..|s.records|] == s.records
                      && r.value.records[|s.records|].id == s.nextId
    ensures r.Ok? ==> && r.value.records[|s.records|].description == description
                      && r.value.records[|s.records|].amount == amount.value
                      && r.value.records[|s.records|].category == category
    ensures r.Ok? && date.Some? ==> r.value.records[|s.records|].date == date.value
    ensures r.Ok? && date.None? ==> r.value.records[|s.records|].date == today
    ensures r.Ok? && Valid(s) ==> Valid(r.value)
  {
    match Add(s.records, description, amount, category, date, today)
    case Err(err) => Err(err)
    case Ok(added) =>
      var e := added.created.(id := s.nextId);
      var records := s.records + [e];
      assert records[..|s.records|] == s.records;
      assert Valid(s) ==> Distinct(Ids(records)) by {
        if Valid(s) {
          forall i, j | 0 <= i < j < |records| ensures Ids(records)[i] != Ids(records)[j] {
            if j < |s.records| {
              assert Ids(s.records)[i] != Ids(s.records)[j];
            }
          }
        }
      }
      Ok(Store(records, s.nextId + 1))
  }

  /** A delete keeps the ids distinct and below the counter. */
  lemma RemoveKeepsValid(s: Store, id: int)
    ensures Valid(s) ==> Valid(Store(Delete(s.records, id), s.nextId))
  {
    if Valid(s) {
      DeleteKeepsDistinct(s.records, id);
      var r := Delete(s.records, id);
      forall k | 0 <= k < |r| ensures r[k].id < s.nextId {
        assert r[k] in s.records;
      }
    }
  }

  /** A successful update keeps the ids distinct and below the counter. */
  lemma EditKeepsValid(s: Store, id: int, patch: Patch)
    requires Update(s.records, id, patch).Ok?
    ensures Valid(s) ==> Valid(Store(Update(s.records, id, patch).value, s.nextId))
  {
    if Valid(s) {
      UpdateFrame(s.records, id, patch);
      var ys := Update(s.records, id, patch).value;
      assert Ids(ys) == Ids(s.records);
      forall k | 0 <= k < |ys| ensures ys[k].id < s.nextId {
        assert ys[k].id == Ids(ys)[k] == Ids(s.records)[k];
      }
    }
  }

  /** The store after serving `req` with the counter-based create. The
      counter advances exactly on a create whose amount parses, and every
      request keeps the ids distinct and below the counter. */
  function HandleFresh(s: Store, req: Request): (r: Store)
    ensures r.nextId == s.nextId + (if req.Create? && req.amount.Parsed? then 1 else 0)
    ensures Valid(s) ==> Valid(r)
  {
    match req
    case Create(description, amount, category, date, today) =>
      (match AddFresh(s, description, amount, category, date, today)
       case Ok(s') => s'
       case Err(_) => s)
    case Remove(id) =>
      RemoveKeepsValid(s, id);
      Store(Delete(s.records, id), s.nextId)
    case Edit(id, patch) =>
      (match Update(s.records, id, patch)
       case Ok(ys) => EditKeepsValid(s, id, patch); Store(ys, s.nextId)
       case Err(_) => s)
  }

  /** Requests served in sequence with the counter: it advances once per
      create whose amount parses. */
  function RunFresh(s: Store, reqs: seq<Request>): (r: Store)
    ensures r.nextId == s.nextId + ValidCreates(reqs)
    decreases |reqs|
  {
    if |reqs| == 0 then s else RunFresh(HandleFresh(s, reqs[0]), reqs[1..])
  }

  /** With the counter, no sequence of creates, updates and deletes ever
      stores two records with the same id. */
  lemma {:induction false} RunFreshKeepsValid(s: Store, reqs: seq<Request>)
    requires Valid(s)
    ensures Valid(RunFresh(s, reqs))
    ensures Distinct(Ids(RunFresh(s, reqs).records))
    decreases |reqs|
  {
    if |reqs| != 0 {
      RunFreshKeepsValid(HandleFresh(s, reqs[0]), reqs[1..]);
    }
  }

  /** The requests that give two records id 2 under the `len + 1` rule give
      distinct ids under the counter. */
  lemma FreshIdsAvoidDuplicate()
    ensures var s := RunFresh(Store([], 1), [Create("rent", Parsed(500.0), "home", None, "2024-03-01"),
                                             Create("bus", Parsed(2.5), "transport", None, "2024-03-01"),
                                             Remove(1),
                                             Create("tea", Parsed(3.0), "food", None, "2024-03-02")]);
      Ids(s.records) == [2, 3]
  {
  }
}
