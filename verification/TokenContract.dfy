/**
  The token contract as it runs: each call reads and writes the storage step by step, and a call that
  throws leaves it alone (src/native_contract/native_token_contract.cpp:32-123, 250-371).
 */
module TokenContract {
  import opened Signed64
  import T = TokenLedger

  class Contract {
    var admin: T.Address
    var inited: bool
    var name: string
    var symbol: string
    var supply: int
    var precision: int
    var users: map<T.Address, int>
    var allowed: map<T.Address, map<T.Address, int>>

    ghost function Now(): T.Token reads this {
      T.Token(admin, inited, name, symbol, supply, precision, users, allowed)
    }

    /** init */
    constructor (caller: T.Address)
      ensures Now() == T.Created(caller)
    {
      admin, inited, name, symbol, supply, precision := caller, false, "", "", 0, 0;
      users, allowed := map[], map[];
    }

    method GetBalanceOfUser(owner: T.Address) returns (n: int)
      ensures n == T.Get(users, owner)
    {
      n := if owner in users then users[owner] else 0;
    }

    method GetAllowedOfUser(from: T.Address) returns (a: map<T.Address, int>)
      ensures a == T.AllowedOf(Now(), from)
    {
      a := if from in allowed then allowed[from] else map[];
    }

    method InitToken(caller: T.Address, n: string, s: string, amount: int, p: int) returns (ok: bool)
      modifies this
      ensures ok == T.InitToken(old(Now()), caller, n, s, amount, p).Some?
      ensures Now() == T.Exec(old(Now()), T.InitCall(caller, n, s, amount, p))
    {
      if caller != admin || inited {
        return false;
      }
      if n == "" || s == "" || amount <= 0 || p <= 0 || p !in T.PRECISIONS {
        return false;
      }
      inited, precision, supply, name, symbol := true, p, amount, n, s;
      users := users[caller := amount];
      return true;
    }

    /** The storage writes of transfer and transferFrom. */
    method Move(from: T.Address, to: T.Address, amount: int)
      modifies this`users
      ensures users == T.Move(old(users), from, to, amount)
    {
      var balance := GetBalanceOfUser(from);
      var remain := balance - amount;
      if remain > 0 {
        users := users[from := remain];
      } else {
        users := users - {from};
      }
      var toAmount := GetBalanceOfUser(to);
      users := users[to := Wrap64(toAmount + amount)];
    }

    method Transfer(from: T.Address, to: T.Address, amount: int) returns (ok: bool)
      modifies this`users
      ensures ok == T.Transfer(old(Now()), from, to, amount).Some?
      ensures Now() == T.Exec(old(Now()), T.TransferCall(from, to, amount))
    {
      if !inited || amount <= 0 {
        return false;
      }
      var balance := GetBalanceOfUser(from);
      if balance < amount {
        return false;
      }
      Move(from, to, amount);
      return true;
    }

    method Approve(owner: T.Address, spender: T.Address, amount: int) returns (ok: bool)
      modifies this`allowed
      ensures ok == T.Approve(old(Now()), owner, spender, amount).Some?
      ensures Now() == T.Exec(old(Now()), T.ApproveCall(owner, spender, amount))
    {
      if !inited || amount <= 0 {
        return false;
      }
      var a := GetAllowedOfUser(owner);
      a := a[spender := amount];
      if |a| > 1000 {
        return false;
      }
      allowed := allowed[owner := a];
      return true;
    }

    method TransferFrom(caller: T.Address, from: T.Address, to: T.Address, amount: int) returns (ok: bool)
      modifies this`users, this`allowed
      ensures ok == T.TransferFrom(old(Now()), caller, from, to, amount).Some?
      ensures Now() == T.Exec(old(Now()), T.TransferFromCall(caller, from, to, amount))
    {
      if !inited || amount <= 0 {
        return false;
      }
      var balance := GetBalanceOfUser(from);
      if balance < amount {
        return false;
      }
      var a := GetAllowedOfUser(from);
      if caller !in a {
        return false;
      }
      var approved := a[caller];
      if approved < amount {
        return false;
      }
      Move(from, to, amount);
      if approved - amount == 0 {
        a := a - {caller};
      } else {
        a := a[caller := approved - amount];
      }
      allowed := allowed[from := a];
      return true;
    }
  }
}
