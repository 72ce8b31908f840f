/**
  The token contract's storage, what each call does to it, and what every run keeps
  (src/native_contract/native_token_contract.cpp:56-123, 250-371).
 */
module TokenLedger {
  import opened Options
  import opened Signed64

  type Address = string

  datatype Token = Token(admin: Address, inited: bool, name: string, symbol: string, supply: int, precision: int,
                         users: map<Address, int>, allowed: map<Address, map<Address, int>>)

  function Get<K>(m: map<K, int>, k: K): int {
    if k in m then m[k] else 0
  }

  function AllowedOf(t: Token, owner: Address): map<Address, int> {
    if owner in t.allowed then t.allowed[owner] else map[]
  }

  function Allowance(t: Token, owner: Address, spender: Address): int {
    Get(AllowedOf(t, owner), spender)
  }

  const PRECISIONS: seq<int> := [1, 10, 100, 1000, 10000, 100000, 1000000, 10000000, 100000000]

  /** init */
  function Created(admin: Address): Token {
    Token(admin, false, "", "", 0, 0, map[], map[])
  }

  function InitToken(t: Token, caller: Address, name: string, symbol: string, supply: int,
          precision: int): Option<Token> {
    if caller != t.admin || t.inited || name == "" || symbol == "" || supply <= 0 || precision !in PRECISIONS then None
    else Some(t.(inited := true, name := name, symbol := symbol, supply := supply, precision := precision,
      users := t.users[caller := supply]))
  }

  /** Takes amount from one user and gives it to another; a balance of zero is not stored. */
  function Move(users: map<Address, int>, from: Address, to: Address, amount: int): map<Address, int> {
    var left := Get(users, from) - amount;
    var users1 := if left > 0 then users[from := left] else users - {from};
    users1[to := Wrap64(Get(users1, to) + amount)]
  }

  function Transfer(t: Token, from: Address, to: Address, amount: int): Option<Token> {
    if !t.inited || amount <= 0 || Get(t.users, from) < amount then None
    else Some(t.(users := Move(t.users, from, to, amount)))
  }

  function Approve(t: Token, owner: Address, spender: Address, amount: int): Option<Token> {
    var a := AllowedOf(t, owner)[spender := amount];
    if !t.inited || amount <= 0 || |a| > 1000 then None
    else Some(t.(allowed := t.allowed[owner := a]))
  }

  function TransferFrom(t: Token, caller: Address, from: Address, to: Address, amount: int): Option<Token> {
    var a := AllowedOf(t, from);
    if !t.inited || amount <= 0 || Get(t.users, from) < amount || caller !in a || a[caller] < amount then None
    else
      var left := a[caller] - amount;
      Some(t.(users := Move(t.users, from, to, amount),
              allowed := t.allowed[from := if left == 0 then a - {caller} else a[caller := left]]))
  }

  // ---------- runs ----------

  datatype Call =
    | InitCall(caller: Address, name: string, symbol: string, supply: int, precision: int)
    | TransferCall(from: Address, to: Address, amount: int)
    | ApproveCall(owner: Address, spender: Address, amount: int)
    | TransferFromCall(caller: Address, from: Address, to: Address, amount: int)

  function Result(t: Token, c: Call): Option<Token> {
    match c
    case InitCall(caller, name, symbol, supply, precision) => InitToken(t, caller, name, symbol, supply, precision)
    case TransferCall(from, to, amount) => Transfer(t, from, to, amount)
    case ApproveCall(owner, spender, amount) => Approve(t, owner, spender, amount)
    case TransferFromCall(caller, from, to, amount) => TransferFrom(t, caller, from, to, amount)
  }

  /** A call that throws has no effect. */
  function Exec(t: Token, c: Call): Token {
    var r := Result(t, c);
    if r.Some? then r.value else t
  }

  function Run(t: Token, calls: seq<Call>): Token
    decreases |calls|
  {
    if calls == [] then t else Exec(Run(t, calls[..|calls| - 1]), calls[|calls| - 1])
  }

  /** The amounts of the calls are 64-bit integers. */
  predicate Typed(c: Call) {
    c.InitCall? ==> c.supply < 0x8000_0000_0000_0000
  }

  // ---------- balances ----------

  ghost function Sum(m: map<Address, int>): int
    decreases |m|
  {
    if m == map[] then 0
    else
      var k :| k in m;
      m[k] + Sum(m - {k})
  }

  lemma {:induction false} SumWithout(m: map<Address, int>, k: Address)
    requires k in m
    ensures Sum(m) == m[k] + Sum(m - {k})
    decreases |m|
  {
    var j :| j in m && Sum(m) == m[j] + Sum(m - {j});
    if j != k {
      SumWithout(m - {j}, k);
      SumWithout(m - {k}, j);
      assert (m - {j}) - {k} == (m - {k}) - {j};
    }
  }

  lemma SumUpdate(m: map<Address, int>, k: Address, v: int)
    ensures Sum(m[k := v]) == Sum(m) + v - Get(m, k)
    ensures Sum(m - {k}) == Sum(m) - Get(m, k)
  {
    SumWithout(m[k := v], k);
    if k in m {
      SumWithout(m, k);
      assert m[k := v] - {k} == m - {k};
    } else {
      assert m[k := v] - {k} == m && m - {k} == m;
    }
  }

  ghost predicate AllNonNegative(m: map<Address, int>) {
    forall k :: k in m ==> m[k] >= 0
  }

  lemma {:induction false} SumBound(m: map<Address, int>, k: Address)
    requires AllNonNegative(m)
    ensures 0 <= Get(m, k) <= Sum(m)
    decreases |m|
  {
    if k in m {
      SumWithout(m, k);
      SumNonNegative(m - {k});
    } else {
      SumNonNegative(m);
    }
  }

  lemma {:induction false} SumNonNegative(m: map<Address, int>)
    requires AllNonNegative(m)
    ensures Sum(m) >= 0
    decreases |m|
  {
    if m != map[] {
      var k :| k in m && Sum(m) == m[k] + Sum(m - {k});
      SumNonNegative(m - {k});
    }
  }

  /** Moving keeps the sum, and the 64-bit addition does not wrap: even to oneself. */
  lemma MoveKeeps(users: map<Address, int>, from: Address, to: Address, amount: int, supply: int)
    requires AllNonNegative(users) && Sum(users) == supply < 0x8000_0000_0000_0000 && 0 < amount <= Get(users, from)
    ensures AllNonNegative(Move(users, from, to, amount)) && Sum(Move(users, from, to, amount)) == supply
    ensures from != to ==> Get(Move(users, from, to, amount), to) == Get(users, to) + amount
    ensures from != to ==> Get(Move(users, from, to, amount), from) == Get(users, from) - amount
    ensures from == to ==> Get(Move(users, from, to, amount), to) == Get(users, to)
  {
    var left := Get(users, from) - amount;
    var users1 := if left > 0 then users[from := left] else users - {from};
    SumUpdate(users, from, left);
    SumBound(users1, to);
    SumUpdate(users1, to, Get(users1, to) + amount);
  }

  // ---------- what every run keeps ----------

  ghost predicate AllowancesOk(t: Token) {
    forall o :: o in t.allowed ==> |t.allowed[o]| <= 1000 && forall s :: s in t.allowed[o] ==> t.allowed[o][s] > 0
  }

  /** Before init_token there is nothing; afterwards the balances are non-negative and add up to the supply,
      and every stored allowance is positive, with at most 1000 spenders an owner. */
  ghost predicate Sound(t: Token) {
    && AllNonNegative(t.users) && AllowancesOk(t)
    && (if t.inited then Sum(t.users) == t.supply && 0 < t.supply < 0x8000_0000_0000_0000
        else t.users == map[] && t.allowed == map[])
  }

  lemma TransferFromSound(t: Token, caller: Address, from: Address, to: Address, amount: int, t': Token)
    requires Sound(t) && TransferFrom(t, caller, from, to, amount) == Some(t')
    ensures Sound(t')
  {
    MoveKeeps(t.users, from, to, amount, t.supply);
    var a := AllowedOf(t, from);
    SmallerMap(a, caller, a[caller] - amount);
    assert from in t.allowed;
    StoreAllowed(t, from, if a[caller] == amount then a - {caller} else a[caller := a[caller] - amount]);
  }

  lemma StoreAllowed(t: Token, owner: Address, a: map<Address, int>)
    requires AllowancesOk(t) && |a| <= 1000 && forall s :: s in a ==> a[s] > 0
    ensures AllowancesOk(t.(allowed := t.allowed[owner := a]))
  {
  }

  lemma SmallerMap(m: map<Address, int>, k: Address, v: int)
    requires k in m
    ensures |m - {k}| <= |m| && |m[k := v]| == |m|
  {
    var m' := m[k := v];
    assert m'.Keys == m.Keys;
    assert |m'| == |m'.Keys| && |m| == |m.Keys|;
    var m'' := m - {k};
    assert m''.Keys == m.Keys - {k};
    assert |m''| == |m''.Keys|;
  }

  lemma ExecSound(t: Token, c: Call)
    requires Sound(t) && Typed(c)
    ensures Sound(Exec(t, c))
  {
    match c
    case InitCall(caller, name, symbol, supply, precision) =>
      SumUpdate(t.users, caller, supply);
    case TransferCall(from, to, amount) =>
      if Transfer(t, from, to, amount).Some? { MoveKeeps(t.users, from, to, amount, t.supply); }
    case ApproveCall(owner, spender, amount) =>
      if Approve(t, owner, spender, amount).Some? { StoreAllowed(t, owner, AllowedOf(t, owner)[spender := amount]); }
    case TransferFromCall(caller, from, to, amount) =>
      if TransferFrom(t, caller, from, to, amount).Some? { TransferFromSound(t, caller, from, to, amount, Exec(t, c)); }
  }

  lemma {:induction false} RunSound(admin: Address, calls: seq<Call>)
    requires forall k :: 0 <= k < |calls| ==> Typed(calls[k])
    ensures Sound(Run(Created(admin), calls))
    decreases |calls|
  {
    if calls != [] {
      RunSound(admin, calls[..|calls| - 1]);
      ExecSound(Run(Created(admin), calls[..|calls| - 1]), calls[|calls| - 1]);
    }
  }

  /** Supply, name, symbol and precision are set once. */
  lemma {:induction false} InitOnce(t: Token, calls: seq<Call>)
    requires t.inited
    ensures var t' := Run(t, calls);
      t'.inited && t'.supply == t.supply && t'.name == t.name && t'.symbol == t.symbol &&
        t'.precision == t.precision && t'.admin == t.admin
    decreases |calls|
  {
    if calls != [] {
      InitOnce(t, calls[..|calls| - 1]);
    }
  }

  // ---------- allowances ----------

  /** What an owner last approved for a spender, and how much the spender has moved since. */
  datatype Grant = Grant(approved: int, moved: int)

  function History(t: Token, calls: seq<Call>, owner: Address, spender: Address): Grant
    decreases |calls|
  {
    if calls == [] then Grant(0, 0)
    else
      var before := calls[..|calls| - 1];
      var c := calls[|calls| - 1];
      var g := History(t, before, owner, spender);
      if Result(Run(t, before), c).None? then g
      else if c.ApproveCall? && c.owner == owner && c.spender == spender then Grant(c.amount, 0)
      else if c.TransferFromCall? && c.from == owner && c.caller == spender then Grant(g.approved, g.moved + c.amount)
      else g
  }

  /** The amount moved since the last approve plus the remaining allowance is the approved amount; in
      particular no more than the approved amount is ever moved. */
  lemma {:induction false} GrantsAreKept(admin: Address, calls: seq<Call>, owner: Address, spender: Address)
    requires forall k :: 0 <= k < |calls| ==> Typed(calls[k])
    ensures var g := History(Created(admin), calls, owner, spender);
      g.moved + Allowance(Run(Created(admin), calls), owner, spender) == g.approved && 0 <= g.moved <= g.approved
    decreases |calls|
  {
    if calls != [] {
      var before := calls[..|calls| - 1];
      GrantsAreKept(admin, before, owner, spender);
      RunSound(admin, before);
      GrantStep(Run(Created(admin), before), calls[|calls| - 1], owner, spender);
    }
  }

  /** What one call does to an allowance. */
  lemma GrantStep(t: Token, c: Call, owner: Address, spender: Address)
    requires Sound(t)
    ensures var a' := Allowance(Exec(t, c), owner, spender);
      if Result(t, c).Some? && c.ApproveCall? && c.owner == owner && c.spender == spender then a' == c.amount > 0
      else if Result(t, c).Some? && c.TransferFromCall? && c.from == owner && c.caller == spender then
        a' == Allowance(t, owner, spender) - c.amount >= 0 && c.amount > 0
      else a' == Allowance(t, owner, spender)
  {
  }
}
