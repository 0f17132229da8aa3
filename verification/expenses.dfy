/** Shared vocabulary of the expense ledger: the stored record, the partial
    update a client sends, the outcome of parsing an amount, and the small
    sequence helpers the ledger operations are specified with. */
module Expenses {

  /** A value that may be absent, like a key missing from a JSON request body. */
  datatype Option<+T> = None | Some(value: T) {

    /** The value if present, otherwise `default` (Python's `dict.get(key, default)`). */
    function GetOr(default: T): T {
      match this
      case Some(v) => v
      case None => default
    }
  }

  /** What `float(...)` made of an amount taken from a request: a number, or an exception. */
  datatype ParsedAmount = Parsed(value: real) | Unparsable

  /** The one error the ledger operations raise before anything is saved. */
  datatype Error = InvalidAmount

  datatype Result<+T> = Ok(value: T) | Err(error: Error)

  /** One stored expense. Amounts are exact reals rather than IEEE doubles. */
  datatype Expense = Expense(id: int, description: string, amount: real, category: string, date: string)

  /** The fields of an update request; an absent field keeps the stored value. */
  datatype Patch = Patch(
    description: Option<string>,
    amount: Option<ParsedAmount>,
    category: Option<string>,
    date: Option<string>)

  /** The patch that names no field at all. */
  const EmptyPatch := Patch(None, None, None, None)

  /** The ids of the records, position by position. */
  function Ids(xs: seq<Expense>): seq<int> {
    seq(|xs|, i requires 0 <= i < |xs| => xs[i].id)
  }

  /** The categories of the records, position by position. */
  function Categories(xs: seq<Expense>): seq<string> {
    seq(|xs|, i requires 0 <= i < |xs| => xs[i].category)
  }

  /** No value occurs twice. */
  predicate Distinct<K(==)>(s: seq<K>) {
    forall i, j :: 0 <= i < j < |s| ==> s[i] != s[j]
  }

  /** Position of the first occurrence of `k` in `s`, or `|s|` when there is none. */
  function IndexOf<K(==)>(s: seq<K>, k: K): (r: nat)
    ensures r <= |s|
    ensures r < |s| <==> k in s
    ensures r < |s| ==> s[r] == k
    ensures k !in s[..r]
  {
    if |s| == 0 then 0
    else if s[0] == k then 0
    else
      var r' := IndexOf(s[1..], k);
      assert s[..r' + 1] == [s[0]] + s[1..][..r'];
      1 + r'
  }

  /** Looking up a value in a concatenation finds it in the first part when
      it occurs there, and past the first part otherwise. */
  lemma {:induction false} IndexOfAppend<K>(s: seq<K>, t: seq<K>, k: K)
    ensures k in s ==> IndexOf(s + t, k) == IndexOf(s, k)
    ensures k !in s ==> IndexOf(s + t, k) == |s| + IndexOf(t, k)
  {
    if |s| != 0 {
      assert (s + t)[1..] == s[1..] + t;
      IndexOfAppend(s[1..], t, k);
    } else {
      assert s + t == t;
    }
  }

  /** A sequence with a first element is repetition-free exactly when its
      tail is and the first element does not recur in it. */
  lemma DistinctCons<K>(k: K, s: seq<K>)
    ensures Distinct([k] + s) <==> Distinct(s) && k !in s
  {
    var t := [k] + s;
    if Distinct(t) {
      forall i, j | 0 <= i < j < |s| ensures s[i] != s[j] {
        assert t[i + 1] != t[j + 1];
      }
      forall m | 0 <= m < |s| ensures s[m] != k {
        assert t[0] != t[m + 1];
      }
    }
    if Distinct(s) && k !in s {
      forall i, j | 0 <= i < j < |t| ensures t[i] != t[j] {
        assert t[j] == s[j - 1];
        if i > 0 {
          assert s[i - 1] != s[j - 1];
        } else {
          assert s[j - 1] in s;
        }
      }
    }
  }
}
