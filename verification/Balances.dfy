/** Sums of balances, and what a transaction does to balances and nonces. */
module Balances {
  import opened StateView

  ghost function Total(accts: map<Address, Acct>): int
    decreases |accts|
  {
    if accts == map[] then 0
    else var a :| a in accts; accts[a].balance + Total(accts - {a})
  }

  lemma {:induction false} Smaller(accts: map<Address, Acct>, a: Address)
    requires a in accts
    ensures |accts - {a}| < |accts|
  {
    assert (accts - {a}).Keys == accts.Keys - {a};
    assert |accts.Keys| == |accts| && |(accts - {a}).Keys| == |accts - {a}|;
  }

  lemma {:induction false} TotalPick(accts: map<Address, Acct>, a: Address)
    requires a in accts
    ensures Total(accts) == accts[a].balance + Total(accts - {a})
    decreases |accts|
  {
    var b :| b in accts && Total(accts) == accts[b].balance + Total(accts - {b});
    if b != a {
      Smaller(accts, b);
      Smaller(accts, a);
      TotalPick(accts - {b}, a);
      TotalPick(accts - {a}, b);
      assert accts - {b} - {a} == accts - {a} - {b};
    }
  }

  lemma {:induction false} TotalWith(accts: map<Address, Acct>, a: Address, x: Acct)
    ensures Total(accts[a := x]) == Total(accts) - (if a in accts then accts[a].balance else 0) + x.balance
  {
    TotalPick(accts[a := x], a);
    if a in accts {
      TotalPick(accts, a);
      assert accts[a := x] - {a} == accts - {a};
    } else {
      assert accts[a := x] - {a} == accts;
    }
  }

  /** Dropping accounts without a balance keeps the sum. */
  lemma {:induction false} TotalDrop(accts: map<Address, Acct>, rest: map<Address, Acct>)
    requires rest.Keys <= accts.Keys && forall a | a in rest :: rest[a] == accts[a]
    requires forall a | a in accts && a !in rest :: accts[a].balance == 0
    ensures Total(rest) == Total(accts)
    decreases |accts|
  {
    if accts == map[] {
      assert rest == map[];
    } else {
      var a :| a in accts;
      Smaller(accts, a);
      TotalPick(accts, a);
      if a in rest {
        TotalPick(rest, a);
        TotalDrop(accts - {a}, rest - {a});
      } else {
        TotalDrop(accts - {a}, rest);
      }
    }
  }

  // ---- changes of one account ----

  function Credit(v: View, a: Address, amount: int): View {
    var w := Ensured(v, a);
    WithAcct(w, a, w.accts[a].(balance := w.accts[a].balance + amount))
  }

  function Bump(v: View, a: Address): View {
    var w := Ensured(v, a);
    WithAcct(w, a, w.accts[a].(nonce := Next(w.accts[a].nonce)))
  }

  function Next(n: Uint64): Uint64 {
    (n + 1) % 0x1_0000_0000_0000_0000
  }

  ghost predicate NoneSuicided(v: View) {
    forall a | a in v.accts :: !v.accts[a].suicided
  }

  ghost predicate NoneNegative(v: View) {
    forall a: Address :: BalanceIn(v, a) >= 0
  }

  lemma {:induction false} EnsuredSame(v: View, a: Address)
    ensures Total(Ensured(v, a).accts) == Total(v.accts)
    ensures forall b :: BalanceIn(Ensured(v, a), b) == BalanceIn(v, b) && NonceIn(Ensured(v, a), b) == NonceIn(v, b)
    ensures NoneSuicided(v) ==> NoneSuicided(Ensured(v, a))
  {
    TotalWith(v.accts, a, NEW_ACCT);
  }

  lemma {:induction false} CreditEffect(v: View, a: Address, amount: int)
    ensures Total(Credit(v, a, amount).accts) == Total(v.accts) + amount
    ensures forall b :: BalanceIn(Credit(v, a, amount), b) == BalanceIn(v, b) + if b == a then amount else 0
    ensures forall b :: NonceIn(Credit(v, a, amount), b) == NonceIn(v, b)
    ensures NoneSuicided(v) ==> NoneSuicided(Credit(v, a, amount))
  {
    EnsuredSame(v, a);
    var w := Ensured(v, a);
    TotalWith(w.accts, a, w.accts[a].(balance := w.accts[a].balance + amount));
  }

  lemma {:induction false} BumpEffect(v: View, a: Address)
    ensures Total(Bump(v, a).accts) == Total(v.accts)
    ensures forall b :: BalanceIn(Bump(v, a), b) == BalanceIn(v, b)
    ensures forall b :: NonceIn(Bump(v, a), b) == if b == a then Next(NonceIn(v, b)) else NonceIn(v, b)
    ensures NoneSuicided(v) ==> NoneSuicided(Bump(v, a))
  {
    EnsuredSame(v, a);
    var w := Ensured(v, a);
    TotalWith(w.accts, a, w.accts[a].(nonce := Next(w.accts[a].nonce)));
  }

  lemma {:induction false} SweptEffect(v: View, dirty: set<Address>)
    requires NoneSuicided(v)
    ensures Total(Swept(v, dirty).accts) == Total(v.accts) && NoneSuicided(Swept(v, dirty))
    ensures forall b :: BalanceIn(Swept(v, dirty), b) == BalanceIn(v, b) && NonceIn(Swept(v, dirty), b) == NonceIn(v, b)
  {
    TotalDrop(v.accts, Swept(v, dirty).accts);
  }
}
