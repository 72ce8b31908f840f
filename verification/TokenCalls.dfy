/**
  What a call of the token contract is for, from the caller's side: exactly when it goes through, and what every
  user's balance and every allowance is then (src/native_contract/native_token_contract.cpp:122-180, 250-371).
 */
module TokenCalls {
  import opened Options
  import opened Arith
  import opened TokenLedger

  /** Token data other than balances and allowances is the same. */
  predicate SameData(t: Token, t': Token) {
    t'.admin == t.admin && t'.inited == t.inited && t'.name == t.name && t'.symbol == t.symbol &&
      t'.supply == t.supply && t'.precision == t.precision
  }

  /** payer has paid amount to payee; nobody else has more or less than before. */
  ghost predicate Paid(t: Token, t': Token, payer: Address, payee: Address, amount: int) {
    forall u :: Get(t'.users, u) == Get(t.users, u) - (if u == payer then amount else 0)
                                                    + (if u == payee then amount else 0)
  }

  lemma MovePays(users: map<Address, int>, from: Address, to: Address, amount: int, supply: int)
    requires AllNonNegative(users) && Sum(users) == supply < 0x8000_0000_0000_0000 && 0 < amount <= Get(users, from)
    ensures forall u :: Get(Move(users, from, to, amount), u)
                     == Get(users, u) - (if u == from then amount else 0) + (if u == to then amount else 0)
  {
    MoveKeeps(users, from, to, amount, supply);
  }

  /** The caller of transfer pays, if he has enough; paying oneself changes nothing. */
  lemma TransferIs(t: Token, from: Address, to: Address, amount: int)
    requires Sound(t)
    ensures var c := TransferCall(from, to, amount);
      if t.inited && amount > 0 && Get(t.users, from) >= amount then
        var t' := Exec(t, c);
        Result(t, c).Some? && Paid(t, t', from, to, amount) && SameData(t, t') && t'.allowed == t.allowed
      else Result(t, c).None? && Exec(t, c) == t
  {
    if t.inited && amount > 0 && Get(t.users, from) >= amount {
      MovePays(t.users, from, to, amount, t.supply);
    }
  }

  /** Whom transferFrom names pays, if he has enough and has approved enough for the caller, and the caller may
      move so much less of his from then on. */
  lemma TransferFromIs(t: Token, caller: Address, from: Address, to: Address, amount: int)
    requires Sound(t)
    ensures var c := TransferFromCall(caller, from, to, amount);
      if t.inited && amount > 0 && Get(t.users, from) >= amount && Allowance(t, from, caller) >= amount then
        var t' := Exec(t, c);
        && Result(t, c).Some? && Paid(t, t', from, to, amount) && SameData(t, t')
        && forall o, s :: Allowance(t', o, s)
                       == Allowance(t, o, s) - if o == from && s == caller then amount else 0
      else Result(t, c).None? && Exec(t, c) == t
  {
    if t.inited && amount > 0 && Get(t.users, from) >= amount {
      MovePays(t.users, from, to, amount, t.supply);
    }
  }

  /** The owner approves an amount for a spender, unless he would have more than 1000 spenders. */
  lemma ApproveIs(t: Token, owner: Address, spender: Address, amount: int)
    requires Sound(t)
    ensures var c := ApproveCall(owner, spender, amount);
      if t.inited && amount > 0 && |AllowedOf(t, owner).Keys + {spender}| <= 1000 then
        var t' := Exec(t, c);
        && Result(t, c).Some? && t'.users == t.users && SameData(t, t')
        && forall o, s :: Allowance(t', o, s) == if o == owner && s == spender then amount else Allowance(t, o, s)
      else Result(t, c).None? && Exec(t, c) == t
  {
    var a := AllowedOf(t, owner)[spender := amount];
    assert a.Keys == AllowedOf(t, owner).Keys + {spender} && |a| == |a.Keys|;
  }

  /** 10^0 to 10^8 */
  ghost predicate TenToAtMost8(n: int) {
    exists p: nat :: p <= 8 && n == Pow(10, p)
  }

  /** The admin creates the token, once, and holds all of it. */
  lemma InitIs(t: Token, caller: Address, name: string, symbol: string, supply: int, precision: int)
    requires Sound(t)
    ensures var c := InitCall(caller, name, symbol, supply, precision);
      if caller == t.admin && !t.inited && name != "" && symbol != "" && supply > 0 && TenToAtMost8(precision) then
        var t' := Exec(t, c);
        && Result(t, c).Some? && t'.inited && t'.name == name && t'.symbol == symbol && t'.precision == precision
        && t'.supply == supply && t'.admin == t.admin && t'.allowed == map[] && t'.users == map[caller := supply]
      else Result(t, c).None? && Exec(t, c) == t
  {
    TenfoldPrecisions(precision);
  }

  lemma TenfoldPrecisions(precision: int)
    ensures precision in PRECISIONS <==> TenToAtMost8(precision)
  {
    TensTo8();
    if precision in PRECISIONS {
      var p :| 0 <= p < |PRECISIONS| && PRECISIONS[p] == precision;
      assert precision == Pow(10, p);
    }
    if p: nat :| p <= 8 && precision == Pow(10, p) {
      assert PRECISIONS[p] == precision;
    }
  }

  lemma TensTo8()
    ensures forall p: nat :: p <= 8 ==> PRECISIONS[p] == Pow(10, p)
  {
    forall p: nat | p <= 8 ensures PRECISIONS[p] == Pow(10, p) {
      if p > 4 {
        PowAdd(10, 4, p - 4);
      }
    }
  }
}
