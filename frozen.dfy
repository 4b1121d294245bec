/** The frozen balance of an account: the net effect of its pending ("created")
    transactions, converted into the account's currency. */
module Frozen {
  import opened Errors
  import opened Entities
  import opened Validator
  import opened Store

  /** A pending transaction whose currency pair the converter refuses. */
  predicate Blocks(t: Transaction, currency: string) {
    t.status == StatusCreated && !(Supported(t.currency) && Supported(currency))
  }

  /** Sum of two partial totals; the first failure wins. */
  function Combine(a: Result<real>, b: Result<real>): Result<real> {
    match a
    case Err(e) => Err(e)
    case Ok(x) =>
      match b
      case Err(e) => Err(e)
      case Ok(y) => Ok(x + y)
  }

  /** What one transaction adds to the frozen balance of an account held in
      `currency`: its converted amount for a pending deposit, minus it for a
      pending withdrawal, nothing (and no conversion) once it is settled. */
  function Contribution(t: Transaction, currency: string): (r: Result<real>)
    ensures t.status != StatusCreated ==> r == Ok(0.0)
    ensures r.Err? <==> Blocks(t, currency)
    ensures r.Err? ==> r.error == InvalidCurrency
    ensures r.Ok? && t.status == StatusCreated ==>
      r.value == (if t.IsDeposit() then 1.0 else -1.0) * ValidateCurrency(t.currency, currency, t.amount).value
  {
    if t.status != StatusCreated then Ok(0.0)
    else
      match ValidateCurrency(t.currency, currency, t.amount)
      case Err(e) => Err(e)
      case Ok(amount) => if t.toAccount == 0 then Ok(amount) else Ok(-amount)
  }

  /** The running total of the contributions of `rows`, taken in order; the
      first blocking row aborts the whole computation. */
  function FrozenTotal(rows: seq<Transaction>, currency: string): (r: Result<real>)
    ensures r.Err? <==> exists i :: 0 <= i < |rows| && Blocks(rows[i], currency)
    ensures r.Err? ==> r.error == InvalidCurrency
    decreases |rows|
  {
    if rows == [] then Ok(0.0)
    else Combine(FrozenTotal(rows[..|rows| - 1], currency), Contribution(rows[|rows| - 1], currency))
  }

  /** The pending rows of `rows`, in order. */
  function Pending(rows: seq<Transaction>): (p: seq<Transaction>)
    ensures forall i :: 0 <= i < |p| ==> p[i].status == StatusCreated && p[i] in rows
    decreases |rows|
  {
    if rows == [] then []
    else
      var last := rows[|rows| - 1];
      Pending(rows[..|rows| - 1]) + (if last.status == StatusCreated then [last] else [])
  }

  /** The total over a concatenation is the combination of the totals. */
  lemma {:induction false} FrozenAppend(a: seq<Transaction>, b: seq<Transaction>, currency: string)
    ensures FrozenTotal(a + b, currency) == Combine(FrozenTotal(a, currency), FrozenTotal(b, currency))
    decreases |b|
  {
    if b == [] {
      assert a + b == a;
    } else {
      var b' := b[..|b| - 1];
      assert (a + b)[..|a + b| - 1] == a + b';
      assert (a + b)[|a + b| - 1] == b[|b| - 1];
      FrozenAppend(a, b', currency);
    }
  }

  /** Partial totals that can only fail with InvalidCurrency may be combined in
      any order. */
  lemma CombineSwap(a: Result<real>, x: Result<real>, b: Result<real>)
    requires a.Err? ==> a.error == InvalidCurrency
    requires x.Err? ==> x.error == InvalidCurrency
    requires b.Err? ==> b.error == InvalidCurrency
    ensures Combine(Combine(a, x), b) == Combine(Combine(a, b), x)
  {
  }

  /** Appending one row adds its contribution. */
  lemma FrozenSnoc(rows: seq<Transaction>, x: Transaction, currency: string)
    ensures FrozenTotal(rows + [x], currency) == Combine(FrozenTotal(rows, currency), Contribution(x, currency))
  {
    assert (rows + [x])[..|rows + [x]| - 1] == rows;
  }

  /** Taking one row out of a list takes exactly its contribution out of the total. */
  lemma FrozenWithout(t: seq<Transaction>, j: nat, currency: string)
    requires j < |t|
    ensures FrozenTotal(t, currency) == Combine(FrozenTotal(t[..j] + t[j + 1..], currency), Contribution(t[j], currency))
  {
    var left, x, right := t[..j], t[j], t[j + 1..];
    assert t == (left + [x]) + right;
    var a, c, b := FrozenTotal(left, currency), Contribution(x, currency), FrozenTotal(right, currency);
    FrozenSnoc(left, x, currency);
    FrozenAppend(left + [x], right, currency);
    assert FrozenTotal(t, currency) == Combine(Combine(a, c), b);
    FrozenAppend(left, right, currency);
    CombineSwap(a, c, b);
  }

  /** The total does not depend on the order of the rows. */
  lemma {:induction false} FrozenPermutation(s: seq<Transaction>, t: seq<Transaction>, currency: string)
    requires multiset(s) == multiset(t)
    ensures FrozenTotal(s, currency) == FrozenTotal(t, currency)
    decreases |s|
  {
    if s == [] {
      assert |t| == |multiset(t)| == 0;
    } else {
      var x := s[|s| - 1];
      var s' := s[..|s| - 1];
      assert s == s' + [x];
      assert x in multiset(s);
      var j :| 0 <= j < |t| && t[j] == x;
      var t' := t[..j] + t[j + 1..];
      assert t == t[..j] + [x] + t[j + 1..];
      assert multiset(t') == multiset(t) - multiset{x};
      assert multiset(s') == multiset(s) - multiset{x};
      FrozenPermutation(s', t', currency);
      FrozenWithout(t, j, currency);
    }
  }

  /** Rows that carry distinct identifiers occur once each. */
  lemma {:induction false} DistinctOccursOnce(s: seq<Transaction>)
    requires forall i, j :: 0 <= i < j < |s| ==> s[i].id != s[j].id
    ensures forall x :: multiset(s)[x] == if x in s then 1 else 0
    decreases |s|
  {
    if s != [] {
      var s' := s[..|s| - 1];
      assert s == s' + [s[|s| - 1]];
      DistinctOccursOnce(s');
    }
  }

  /** Any two listings of the same account's transactions give the same total,
      so the frozen balance does not depend on the order the table returns rows in. */
  lemma ListingsAgree(m: map<nat, Transaction>, accountId: nat, s: seq<Transaction>, t: seq<Transaction>, currency: string)
    requires IsListing(m, accountId, s) && IsListing(m, accountId, t)
    ensures FrozenTotal(s, currency) == FrozenTotal(t, currency)
  {
    DistinctOccursOnce(s);
    DistinctOccursOnce(t);
    forall x
      ensures multiset(s)[x] == multiset(t)[x]
    {
      if x in s {
        var i :| 0 <= i < |s| && s[i] == x;
        assert m[x.id] == x;
      }
      if x in t {
        var i :| 0 <= i < |t| && t[i] == x;
        assert m[x.id] == x;
      }
    }
    assert multiset(s) == multiset(t);
    FrozenPermutation(s, t, currency);
  }

  /** Settled rows can be dropped without changing the total. */
  lemma {:induction false} FrozenIgnoresSettled(rows: seq<Transaction>, currency: string)
    ensures FrozenTotal(rows, currency) == FrozenTotal(Pending(rows), currency)
    decreases |rows|
  {
    if rows != [] {
      var prefix, last := rows[..|rows| - 1], rows[|rows| - 1];
      FrozenIgnoresSettled(prefix, currency);
      if last.status == StatusCreated {
        var p := Pending(prefix) + [last];
        assert p[..|p| - 1] == Pending(prefix);
      } else {
        assert Pending(rows) == Pending(prefix);
      }
    }
  }

  /** Settling a pending row (giving it any other status) takes exactly its
      contribution out of the total. */
  lemma SettlingLeavesFrozen(rows: seq<Transaction>, i: nat, status: Status, currency: string)
    requires i < |rows| && rows[i].status == StatusCreated && status != StatusCreated
    ensures FrozenTotal(rows, currency)
         == Combine(FrozenTotal(rows[i := rows[i].(status := status)], currency), Contribution(rows[i], currency))
  {
    var x, x' := rows[i], rows[i].(status := status);
    var left, right := rows[..i], rows[i + 1..];
    assert rows == left + [x] + right;
    assert rows[i := x'] == left + [x'] + right;
    FrozenAppend(left + [x], right, currency);
    FrozenAppend(left + [x'], right, currency);
    assert (left + [x])[..|left + [x]| - 1] == left;
    assert (left + [x'])[..|left + [x']| - 1] == left;
  }

  /** Balance plus frozen balance, or the frozen balance's failure. */
  function Holdings(balance: real, frozen: Result<real>): Result<real> {
    Combine(Ok(balance), frozen)
  }

  /** Settling pending row `i` and adding its contribution to the balance keeps
      balance plus frozen balance. */
  lemma SettlingShiftsHoldings(rows: seq<Transaction>, i: nat, t: Transaction, balance: real, currency: string)
    requires i < |rows| && rows[i] == t && t.status == StatusCreated && Contribution(t, currency).Ok?
    ensures Holdings(balance, FrozenTotal(rows, currency))
         == Holdings(balance + Contribution(t, currency).value,
                     FrozenTotal(rows[i := t.(status := StatusSuccess)], currency))
  {
    SettlingLeavesFrozen(rows, i, StatusSuccess, currency);
    HoldingsMove(balance, FrozenTotal(rows[i := t.(status := StatusSuccess)], currency), Contribution(t, currency).value);
  }

  /** Moving an amount out of the frozen part and into the balance keeps the sum. */
  lemma HoldingsMove(balance: real, frozen: Result<real>, amount: real)
    ensures Holdings(balance, Combine(frozen, Ok(amount))) == Holdings(balance + amount, frozen)
  {
  }
}
