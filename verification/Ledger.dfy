/** The cashless ledger without a database: deposit, withdrawal and the two device transfers, with double-entry
    postings, idempotency keys, the insufficient-funds lockout, and the undoing of a movement whose audit failed. */
module Ledger {
  import opened GoStrings
  import opened ActorTypes
  import opened Requests

  // ---- 64-bit amounts ---------------------------------------------------------------------------------

  const TWO63 := 0x8000_0000_0000_0000

  const TWO64 := 0x1_0000_0000_0000_0000

  type Int64 = x: int | -TWO63 <= x < TWO63

  /** Two's-complement wrap-around. */
  function Wrap(x: int): Int64 {
    (x + TWO63) % TWO64 - TWO63
  }

  lemma WrapSame(x: int)
    requires -TWO63 <= x < TWO63
    ensures Wrap(x) == x
  {
  }

  lemma WrapAdd(x: int, y: int)
    ensures Wrap(Wrap(x) + y) == Wrap(x + y)
  {
    var q := (x + TWO63) / TWO64;
    assert Wrap(x) == x - q * TWO64;
    assert (x + y + TWO63 - q * TWO64) % TWO64 == (x + y + TWO63) % TWO64;
  }

  // ---- data -------------------------------------------------------------------------------------------

  datatype Money = Money(amount: Int64, currency: string)

  datatype Account = Account(currency: string, available: Int64)

  datatype Posting = Posting(account: string, direction: string, amount: Int64, currency: string)

  datatype Kind = Deposit | Withdraw | ToDevice | ToAccount

  /** One of the four requests; `device` is used by `ToDevice` only. */
  datatype Request = Request(kind: Kind, account: string, device: string, money: Option<Money>, idem: string,
                             ctx: Option<Context>, meta: Option<RequestMeta>)

  datatype Code = OK | INVALID | DENIED | ERROR

  /** `partial` is set when a device transfer moved less than was asked for. */
  datatype Response = Response(code: Code, reason: string, tx: Option<nat>, moved: Int64, partial: bool,
                               balance: Option<Money>)

  datatype Tx = Tx(id: nat, account: string, kind: Kind, amount: Int64, currency: string)

  /** Transaction `n` is the one named `tx-n`. */
  datatype State = State(
    accounts: map<string, Account>,
    transactions: map<string, seq<Tx>>,
    postings: map<nat, seq<Posting>>,
    cache: map<(Kind, string), Response>,
    nextTx: nat,
    failures: map<string, nat>,
    lockedUntil: map<string, int>,
    maxFailures: nat,
    lockoutTTL: int)

  function Fresh(maxFailures: nat, lockoutTTL: int): State {
    State(map[], map[], map[], map[], 0, map[], map[], maxFailures, lockoutTTL)
  }

  function OpName(k: Kind): string {
    match k
    case Deposit => "deposit"
    case Withdraw => "withdraw"
    case ToDevice => "to_device"
    case ToAccount => "to_account"
  }

  /** A cache key up to the idempotency key. */
  function KeyHead(k: Kind, account: string): string {
    account + "|" + OpName(k) + "|"
  }

  function CacheKey(r: Request): (Kind, string) {
    (r.kind, KeyHead(r.kind, r.account) + r.idem)
  }

  /** `authorize`: a player may only name their own account. */
  function Authorize(r: Request): Result<(), string> {
    match ResolveActor(r.ctx, r.meta)
    case Err(_) => Err("unresolved actor")
    case Ok(actor) =>
      match actor.kind
      case Operator => Ok(())
      case Service => Ok(())
      case Player => if r.account == actor.id then Ok(()) else Err("player cannot access another account")
      case Unspecified => Err("unauthorized actor type")
  }

  function Refusal(code: Code, reason: string): Response {
    Response(code, reason, None, 0, false, None)
  }

  // ---- one request ------------------------------------------------------------------------------------

  /** The refusals that come before the idempotency cache is read. */
  function Precheck(s: State, r: Request, now: int): Option<Response> {
    if r.account == "" || (r.kind == ToDevice && r.device == "") then Some(Refusal(INVALID, "missing id"))
    else if Authorize(r).Err? then Some(Refusal(DENIED, Authorize(r).error))
    else if r.money.None? || r.money.value.amount <= 0 || r.money.value.currency == "" then
      Some(Refusal(INVALID, "amount"))
    else if r.idem == "" then Some(Refusal(INVALID, "idempotency_key is required"))
    else if r.account in s.lockedUntil && s.lockedUntil[r.account] > now then
      Some(Refusal(DENIED, "eft account locked"))
    else None
  }

  function Opened(s: State, account: string, currency: string): State {
    if account in s.accounts then s else s.(accounts := s.accounts[account := Account(currency, 0)])
  }

  /** The request takes money out of the account. */
  predicate Outgoing(k: Kind) {
    k == Withdraw || k == ToDevice
  }

  /** The other side of the double entry. */
  function ContraOf(r: Request): string {
    match r.kind
    case Deposit => "operator_liability"
    case Withdraw => "operator_liability"
    case ToDevice => "device_escrow:" + r.device
    case ToAccount => "device_escrow"
  }

  function Entries(r: Request, amount: Int64, currency: string): seq<Posting> {
    if Outgoing(r.kind) then
      [Posting(r.account, "debit", amount, currency), Posting(ContraOf(r), "credit", amount, currency)]
    else
      [Posting(ContraOf(r), "debit", amount, currency), Posting(r.account, "credit", amount, currency)]
  }

  predicate Insufficient(k: Kind, available: Int64, amount: Int64) {
    (k == Withdraw && available < amount) || (k == ToDevice && available <= 0)
  }

  /** A device transfer moves what there is, if that is less. */
  function Movable(k: Kind, available: Int64, amount: Int64): Int64 {
    if k == ToDevice && available < amount then available else amount
  }

  function Fraud(s: State, account: string, now: int): State {
    var n := (if account in s.failures then s.failures[account] else 0) + 1;
    s.(failures := s.failures[account := n],
       lockedUntil := if n >= s.maxFailures then s.lockedUntil[account := now + s.lockoutTTL] else s.lockedUntil)
  }

  function Delta(k: Kind, amount: Int64): int {
    if Outgoing(k) then 0 - amount else amount
  }

  function TxsOf(s: State, account: string): seq<Tx> {
    if account in s.transactions then s.transactions[account] else []
  }

  /** The movement itself: a numbered transaction with its postings, and the new balance. */
  function Posted(s: State, r: Request, amount: Int64): State
    requires r.account in s.accounts
  {
    var a := s.accounts[r.account];
    var id := s.nextTx + 1;
    s.(accounts := s.accounts[r.account := a.(available := Wrap(a.available + Delta(r.kind, amount)))],
       transactions :=
         s.transactions[r.account := TxsOf(s, r.account) + [Tx(id, r.account, r.kind, amount, a.currency)]],
       postings := s.postings[id := Entries(r, amount, a.currency)],
       nextTx := id)
  }

  predicate Partial(r: Request, amount: Int64) {
    r.money.Some? && amount < r.money.value.amount
  }

  /** A movement that was audited is answered and remembered, and clears the account's failures. */
  function Moved(s: State, r: Request, amount: Int64): (State, Response)
    requires r.account in s.accounts
  {
    var t := Posted(s, r, amount);
    var a := t.accounts[r.account];
    var resp := Response(OK, "", Some(t.nextTx), amount, Partial(r, amount), Some(Money(a.available, a.currency)));
    (t.(cache := s.cache[CacheKey(r) := resp],
        failures := s.failures - {r.account}, lockedUntil := s.lockedUntil - {r.account}),
     resp)
  }

  /** What remains of a movement whose audit failed: a used-up transaction number, and perhaps an empty list. */
  function Undone(s: State, account: string): State {
    s.(nextTx := s.nextTx + 1, transactions := s.transactions[account := TxsOf(s, account)])
  }

  function Denied(s: State, r: Request, now: int): (State, Response)
    requires r.account in s.accounts
  {
    var a := s.accounts[r.account];
    var resp := Response(DENIED, "insufficient balance", None, 0, false, Some(Money(a.available, a.currency)));
    (Fraud(s, r.account, now).(cache := s.cache[CacheKey(r) := resp]), resp)
  }

  /** A new key, once the account is open; `audited` says whether the audit store accepts the event of a movement. */
  function Settled(s: State, r: Request, now: int, audited: bool): (State, Response)
    requires r.account in s.accounts && r.money.Some?
  {
    var a, m := s.accounts[r.account], r.money.value;
    if a.currency != m.currency then (s, Refusal(INVALID, "currency mismatch for account"))
    else if Insufficient(r.kind, a.available, m.amount) then Denied(s, r, now)
    else if !audited then (Undone(s, r.account), Refusal(ERROR, "audit unavailable"))
    else Moved(s, r, Movable(r.kind, a.available, m.amount))
  }

  /** One request. */
  function Served(s: State, r: Request, now: int, audited: bool): (State, Response) {
    if Precheck(s, r, now).Some? then (s, Precheck(s, r, now).value)
    else if CacheKey(r) in s.cache then (s, s.cache[CacheKey(r)])
    else Settled(Opened(s, r.account, r.money.value.currency), r, now, audited)
  }

  // ---- the service object -----------------------------------------------------------------------------

  /** The signed total of a list of postings, or nothing if a direction is unknown. */
  function Total(ps: seq<Posting>): Option<int> {
    if ps == [] then Some(0)
    else
      var p := ps[|ps| - 1];
      match Total(ps[..|ps| - 1])
      case None => None
      case Some(t) =>
        if p.direction == "credit" then Some(t + p.amount)
        else if p.direction == "debit" then Some(t - p.amount)
        else None
  }

  lemma {:induction false} TotalPrefix(ps: seq<Posting>, n: nat)
    requires n <= |ps| && Total(ps).Some?
    ensures Total(ps[..n]).Some?
  {
    if n < |ps| {
      assert ps[..|ps| - 1][..n] == ps[..n];
      TotalPrefix(ps[..|ps| - 1], n);
    } else {
      assert ps[..n] == ps;
    }
  }

  /** `isBalanced`, in 64-bit arithmetic. */
  method IsBalanced(ps: seq<Posting>) returns (balanced: bool)
    ensures balanced <==> Total(ps).Some? && Wrap(Total(ps).value) == 0
  {
    hide Wrap;
    var total: Int64 := 0;
    WrapSame(0);
    for n := 0 to |ps|
      invariant Total(ps[..n]).Some? && total == Wrap(Total(ps[..n]).value)
    {
      assert ps[..n + 1][..n] == ps[..n];
      var t := Total(ps[..n]).value;
      if ps[n].direction == "credit" {
        WrapAdd(t, ps[n].amount);
        total := Wrap(total + ps[n].amount);
      } else if ps[n].direction == "debit" {
        WrapAdd(t, 0 - ps[n].amount);
        total := Wrap(total - ps[n].amount);
      } else {
        assert Total(ps[..n + 1]).None?;
        if Total(ps).Some? {
          TotalPrefix(ps, n + 1);
          assert false;
        }
        return false;
      }
    }
    assert ps[..|ps|] == ps;
    return total == 0;
  }

  lemma EntriesBalance(r: Request, amount: Int64, currency: string)
    ensures Total(Entries(r, amount, currency)) == Some(0)
  {
    var e := Entries(r, amount, currency);
    assert e[..1] == [e[0]] && [e[0]][..0] == [];
    assert Total([e[0]]) == Some(0 - amount);
  }

  class LedgerService {
    var accounts: map<string, Account>
    var transactions: map<string, seq<Tx>>
    var postings: map<nat, seq<Posting>>
    var cache: map<(Kind, string), Response>
    var nextTx: nat
    var failures: map<string, nat>
    var lockedUntil: map<string, int>
    const maxFailures: nat
    const lockoutTTL: int

    function View(): State
      reads this
    {
      State(accounts, transactions, postings, cache, nextTx, failures, lockedUntil, maxFailures, lockoutTTL)
    }

    /** Transaction numbers are never reused. */
    predicate Valid()
      reads this
    {
      forall i :: i in postings ==> i <= nextTx
    }

    constructor (maxFailures: nat, lockoutTTL: int)
      ensures Valid() && View() == Fresh(maxFailures, lockoutTTL)
    {
      accounts, transactions, postings, cache, nextTx := map[], map[], map[], map[], 0;
      failures, lockedUntil := map[], map[];
      this.maxFailures, this.lockoutTTL := maxFailures, lockoutTTL;
    }

    method RecordEFTFailure(account: string, now: int)
      modifies this`failures, this`lockedUntil
      ensures View() == Fraud(old(View()), account, now)
    {
      var n := (if account in failures then failures[account] else 0) + 1;
      failures := failures[account := n];
      if n >= maxFailures {
        lockedUntil := lockedUntil[account := now + lockoutTTL];
      }
    }

    /** The four handlers, which run the same steps and differ in the sign of the movement, the contra account and
        the funds test. */
    method Handle(r: Request, now: int, audited: bool) returns (resp: Response)
      requires Valid()
      modifies this
      ensures Valid()
      ensures (View(), resp) == Served(old(View()), r, now, audited)
    {
      hide Settled, Precheck, CacheKey;
      var refused := Precheck(View(), r, now);
      if refused.Some? {
        return refused.value;
      }
      PrecheckMoney(View(), r, now);
      var key := CacheKey(r);
      if key in cache {
        return cache[key];
      }
      var m := r.money.value;
      if r.account !in accounts {
        accounts := accounts[r.account := Account(m.currency, 0)];
      }
      resp := Settle(r, m, now, audited);
    }

    /** The funds test and the movement, once the account is open. */
    method Settle(r: Request, m: Money, now: int, audited: bool) returns (resp: Response)
      requires Valid() && r.account in accounts && r.money == Some(m)
      modifies this
      ensures Valid()
      ensures (View(), resp) == Settled(old(View()), r, now, audited)
    {
      hide Moved, Undone, CacheKey;
      var currency := accounts[r.account].currency;
      if currency != m.currency {
        return Refusal(INVALID, "currency mismatch for account");
      }
      if Insufficient(r.kind, accounts[r.account].available, m.amount) {
        RecordEFTFailure(r.account, now);
        resp := Response(DENIED, "insufficient balance", None, 0, false,
                         Some(Money(accounts[r.account].available, currency)));
        cache := cache[CacheKey(r) := resp];
        return;
      }
      resp := Move(r, Movable(r.kind, accounts[r.account].available, m.amount), audited);
    }

    /** Post, move, record, audit; a failed audit is undone step by step. */
    method Move(r: Request, amount: Int64, audited: bool) returns (resp: Response)
      requires Valid() && r.account in accounts
      modifies this
      ensures Valid()
      ensures (View(), resp) ==
              if audited then Moved(old(View()), r, amount)
              else (Undone(old(View()), r.account), Refusal(ERROR, "audit unavailable"))
    {
      hide Wrap, OpName, Entries;
      Post(r, amount);
      if !audited {
        Undo(r, amount, old(View()));
        return Refusal(ERROR, "audit unavailable");
      }
      resp := Response(OK, "", Some(nextTx), amount, Partial(r, amount),
                       Some(Money(accounts[r.account].available, accounts[r.account].currency)));
      cache := cache[CacheKey(r) := resp];
      failures := failures - {r.account};
      lockedUntil := lockedUntil - {r.account};
    }

    method Post(r: Request, amount: Int64)
      requires Valid() && r.account in accounts
      modifies this`accounts, this`transactions, this`postings, this`nextTx
      ensures Valid() && View() == Posted(old(View()), r, amount)
    {
      hide Wrap, Entries, Total;
      var a := accounts[r.account];
      nextTx := nextTx + 1;
      var id := nextTx;
      var entries := Entries(r, amount, a.currency);
      var balanced := IsBalanced(entries);
      EntriesBalance(r, amount, a.currency);
      WrapSame(0);
      if !balanced {
        assert false;
      }
      assert id !in postings;
      postings := postings[id := entries];
      accounts := accounts[r.account := a.(available := Wrap(a.available + Delta(r.kind, amount)))];
      var txs := if r.account in transactions then transactions[r.account] else [];
      transactions := transactions[r.account := txs + [Tx(id, r.account, r.kind, amount, a.currency)]];
    }

    /** Takes back the balance change, the postings and the listed transaction of the last movement. */
    method Undo(r: Request, amount: Int64, ghost before: State)
      requires r.account in before.accounts && before.nextTx + 1 !in before.postings
      requires View() == Posted(before, r, amount)
      modifies this`accounts, this`transactions, this`postings
      ensures View() == Undone(before, r.account)
    {
      hide Posted;
      UndoBack(before, r, amount);
      var a := accounts[r.account];
      accounts := accounts[r.account := a.(available := Wrap(a.available - Delta(r.kind, amount)))];
      postings := postings - {nextTx};
      var listed := transactions[r.account];
      transactions := transactions[r.account := listed[..|listed| - 1]];
    }
  }

  lemma UndoBack(s: State, r: Request, amount: Int64)
    requires r.account in s.accounts && s.nextTx + 1 !in s.postings
    ensures var p := Posted(s, r, amount);
            && r.account in p.accounts && r.account in p.transactions && p.transactions[r.account] != []
            && var a := p.accounts[r.account]; var listed := p.transactions[r.account];
            && p.accounts[r.account := a.(available := Wrap(a.available - Delta(r.kind, amount)))] == s.accounts
            && p.postings - {p.nextTx} == s.postings
            && p.(accounts := s.accounts, postings := s.postings,
                  transactions := p.transactions[r.account := listed[..|listed| - 1]])
               == Undone(s, r.account)
  {
    hide Wrap, Entries, Delta;
    var p := Posted(s, r, amount);
    var b := s.accounts[r.account].available;
    WrapAdd(b + Delta(r.kind, amount), 0 - Delta(r.kind, amount));
    WrapSame(b);
    var listed := p.transactions[r.account];
    assert listed[..|listed| - 1] == TxsOf(s, r.account);
    assert p.transactions[r.account := TxsOf(s, r.account)] == s.transactions[r.account := TxsOf(s, r.account)];
  }

  // ---- what every run keeps ---------------------------------------------------------------------------

  /** What these postings add to an account. */
  function NetOf(ps: seq<Posting>, account: string): int {
    if ps == [] then 0
    else
      var p := ps[|ps| - 1];
      NetOf(ps[..|ps| - 1], account)
      + (if p.account != account then 0 else if p.direction == "credit" then p.amount else 0 - p.amount)
  }

  /** What the first `n` transactions add to an account. */
  function Net(postings: map<nat, seq<Posting>>, n: nat, account: string): int {
    if n == 0 then 0
    else Net(postings, n - 1, account) + (if n in postings then NetOf(postings[n], account) else 0)
  }

  function Books(s: State, account: string): int {
    Net(s.postings, s.nextTx, account)
  }

  /** What an account's statement adds up to. */
  function Statement(txs: seq<Tx>): int {
    if txs == [] then 0 else Statement(txs[..|txs| - 1]) + Delta(txs[|txs| - 1].kind, txs[|txs| - 1].amount)
  }

  /** The account ids that postings use for the other side. */
  predicate Contra(id: string) {
    id == "operator_liability" || id == "device_escrow" || "device_escrow:" < id
  }

  /** A transaction is a positive amount debited from one account and credited to another name, in one currency. */
  predicate DoubleEntry(ps: seq<Posting>) {
    |ps| == 2 && ps[0].direction == "debit" && ps[1].direction == "credit" && ps[0].amount == ps[1].amount > 0
    && ps[0].currency == ps[1].currency
  }

  /** An account's balance is what the books say, wrapped to 64 bits; the books never go below zero for it and
      agree with its statement; and every posting to it is in its currency. */
  predicate InBooks(s: State, account: string) {
    BalanceInBooks(s, account) && InCurrency(s, account)
  }

  predicate BalanceInBooks(s: State, account: string) {
    && Books(s, account) >= 0 && Statement(TxsOf(s, account)) == Books(s, account)
    && (account in s.accounts ==> s.accounts[account].available == Wrap(Books(s, account)))
    && (account !in s.accounts ==> Books(s, account) == 0)
  }

  predicate InCurrency(s: State, account: string) {
    (forall i, k :: i in s.postings && 0 <= k < |s.postings[i]| && s.postings[i][k].account == account ==>
          account in s.accounts && s.postings[i][k].currency == s.accounts[account].currency)
  }

  /** Posted transactions and remembered successes correspond one to one. */
  ghost predicate OnePerKey(s: State) {
    && (forall i :: i in s.postings ==> exists k :: k in s.cache && s.cache[k].tx == Some(i))
    && (forall k :: k in s.cache && s.cache[k].tx.Some? ==> s.cache[k].tx.value in s.postings)
    && (forall k, l :: k in s.cache && l in s.cache && s.cache[k].tx.Some? && s.cache[k].tx == s.cache[l].tx ==> k == l)
  }

  ghost predicate Sound(s: State) {
    && (forall i :: i in s.postings ==> 0 < i <= s.nextTx && DoubleEntry(s.postings[i]))
    && OnePerKey(s)
    && (forall a :: !Contra(a) ==> InBooks(s, a))
  }

  lemma {:induction false} NetSame(p: map<nat, seq<Posting>>, q: map<nat, seq<Posting>>, n: nat, account: string)
    requires forall i :: 0 < i <= n ==> (i in p <==> i in q) && (i in p ==> p[i] == q[i])
    ensures Net(p, n, account) == Net(q, n, account)
  {
    if n > 0 {
      NetSame(p, q, n - 1, account);
    }
  }

  lemma EntriesNet(r: Request, amount: Int64, currency: string, account: string)
    requires account != ContraOf(r)
    ensures NetOf(Entries(r, amount, currency), account) == if account == r.account then Delta(r.kind, amount) else 0
  {
    hide ContraOf;
    var e := Entries(r, amount, currency);
    assert e[..1] == [e[0]] && [e[0]][..0] == [];
    assert NetOf([e[0]], account) == if e[0].account != account then 0 else 0 - amount;
  }

  lemma ContraOfIsContra(r: Request)
    requires r.kind == ToDevice ==> r.device != ""
    ensures Contra(ContraOf(r))
  {
  }

  lemma BooksAfter(s: State, r: Request, amount: Int64, account: string)
    requires r.account in s.accounts && account != ContraOf(r)
    requires forall i :: i in s.postings ==> i <= s.nextTx
    ensures Books(Moved(s, r, amount).0, account) ==
            Books(s, account) + if account == r.account then Delta(r.kind, amount) else 0
  {
    hide ContraOf, Wrap, CacheKey, NetOf, Entries;
    var t := Moved(s, r, amount).0;
    NetSame(s.postings, t.postings, s.nextTx, account);
    EntriesNet(r, amount, s.accounts[r.account].currency, account);
  }

  /** A non-negative number never wraps to more than itself. */
  lemma WrapAtMost(x: int)
    requires x >= 0
    ensures Wrap(x) <= x
  {
    assert x == x / TWO64 * TWO64 + x % TWO64;
    assert (x + TWO63) % TWO64 == (x % TWO64 + TWO63) % TWO64;
  }

  // ---- one step ---------------------------------------------------------------------------------------

  predicate Numbered(s: State) {
    forall i :: i in s.postings ==> 0 < i <= s.nextTx && DoubleEntry(s.postings[i])
  }

  /** The request would move this amount now. */
  predicate Moves(s: State, r: Request, amount: Int64) {
    && r.account in s.accounts && CacheKey(r) !in s.cache && amount > 0
    && (r.kind == ToDevice ==> r.device != "")
    && (Outgoing(r.kind) ==> amount <= s.accounts[r.account].available)
  }

  lemma MovedNumbered(s: State, r: Request, amount: Int64)
    requires Numbered(s) && Moves(s, r, amount)
    ensures Numbered(Moved(s, r, amount).0)
  {
    hide ContraOf, Wrap, CacheKey;
  }

  lemma MovedOnePerKey(s: State, r: Request, amount: Int64)
    requires Numbered(s) && OnePerKey(s) && Moves(s, r, amount)
    ensures OnePerKey(Moved(s, r, amount).0)
  {
    hide ContraOf, Wrap, CacheKey, Entries, DoubleEntry;
    var t := Moved(s, r, amount).0;
    var id := s.nextTx + 1;
    assert t.cache[CacheKey(r)].tx == Some(id);
    forall i | i in t.postings ensures exists k :: k in t.cache && t.cache[k].tx == Some(i) {
      if i != id {
        var k :| k in s.cache && s.cache[k].tx == Some(i);
        assert t.cache[k].tx == Some(i);
      }
    }
  }

  lemma MovedBalance(s: State, r: Request, amount: Int64, account: string)
    requires Numbered(s) && Moves(s, r, amount) && !Contra(account) && BalanceInBooks(s, account)
    ensures BalanceInBooks(Moved(s, r, amount).0, account)
  {
    hide Wrap, CacheKey, Books, Entries, Contra, DoubleEntry, ContraOf;
    ContraOfIsContra(r);
    BooksAfter(s, r, amount, account);
    if account == r.account {
      var listed := TxsOf(Moved(s, r, amount).0, account);
      assert listed[..|listed| - 1] == TxsOf(s, account);
      var b := Books(s, account);
      WrapAtMost(b);
      WrapAdd(b, Delta(r.kind, amount));
    }
  }

  lemma MovedCurrency(s: State, r: Request, amount: Int64, account: string)
    requires Moves(s, r, amount) && !Contra(account) && InCurrency(s, account)
    ensures InCurrency(Moved(s, r, amount).0, account)
  {
    hide Wrap, CacheKey, Contra, ContraOf;
    ContraOfIsContra(r);
  }

  lemma MovedInBooks(s: State, r: Request, amount: Int64, account: string)
    requires Numbered(s) && Moves(s, r, amount) && !Contra(account) && InBooks(s, account)
    ensures InBooks(Moved(s, r, amount).0, account)
  {
    hide Moved, BalanceInBooks, InCurrency, Contra, CacheKey, Numbered;
    MovedBalance(s, r, amount, account);
    MovedCurrency(s, r, amount, account);
  }

  lemma MovedSound(s: State, r: Request, amount: Int64)
    requires Sound(s) && Moves(s, r, amount)
    ensures Sound(Moved(s, r, amount).0)
  {
    hide Moved, InBooks, OnePerKey, Contra, DoubleEntry, CacheKey;
    MovedNumbered(s, r, amount);
    MovedOnePerKey(s, r, amount);
    forall a | !Contra(a) ensures InBooks(Moved(s, r, amount).0, a) {
      MovedInBooks(s, r, amount, a);
    }
  }

  /** The steps that post nothing keep the books: an account may be opened empty, and numbers may be skipped. */
  lemma QuietSound(s: State, t: State)
    requires Sound(s) && t.postings == s.postings && OnePerKey(t)
    requires t.nextTx == s.nextTx || t.nextTx == s.nextTx + 1
    requires forall a :: a in s.accounts ==> a in t.accounts && t.accounts[a] == s.accounts[a]
    requires forall a :: a in t.accounts && a !in s.accounts ==> t.accounts[a].available == 0
    requires forall a :: TxsOf(t, a) == TxsOf(s, a)
    ensures Sound(t)
  {
    hide OnePerKey, Contra, DoubleEntry, Wrap;
    forall a | !Contra(a) ensures InBooks(t, a) {
      assert InBooks(s, a);
      assert Books(t, a) == Books(s, a);
      WrapSame(0);
    }
  }

  lemma SettledSound(s: State, r: Request, now: int, audited: bool)
    requires Sound(s) && r.account in s.accounts && CacheKey(r) !in s.cache
    requires r.money.Some? && r.money.value.amount > 0 && (r.kind == ToDevice ==> r.device != "")
    ensures Sound(Settled(s, r, now, audited).0)
  {
    hide Sound, OnePerKey, Moved, CacheKey;
    var a, m := s.accounts[r.account], r.money.value;
    if a.currency == m.currency {
      if Insufficient(r.kind, a.available, m.amount) {
        OnePerKeyDenied(s, Denied(s, r, now).0, CacheKey(r));
        QuietSound(s, Denied(s, r, now).0);
      } else if !audited {
        OnePerKeySame(s, Undone(s, r.account));
        QuietSound(s, Undone(s, r.account));
      } else {
        MovedSound(s, r, Movable(r.kind, a.available, m.amount));
      }
    }
  }

  lemma StepSound(s: State, r: Request, now: int, audited: bool)
    requires Sound(s)
    ensures Sound(Served(s, r, now, audited).0)
  {
    hide Sound, OnePerKey, Settled, CacheKey, Precheck;
    if Precheck(s, r, now).None? && CacheKey(r) !in s.cache {
      PrecheckMoney(s, r, now);
      var t := Opened(s, r.account, r.money.value.currency);
      OnePerKeySame(s, t);
      QuietSound(s, t);
      SettledSound(t, r, now, audited);
    }
  }

  lemma OnePerKeySame(s: State, t: State)
    requires Sound(s) && t.postings == s.postings && t.cache == s.cache
    ensures OnePerKey(t)
  {
  }

  lemma OnePerKeyDenied(s: State, t: State, key: (Kind, string))
    requires Sound(s) && key !in s.cache && t.postings == s.postings
    requires key in t.cache && t.cache[key].tx == None && t.cache == s.cache[key := t.cache[key]]
    ensures OnePerKey(t)
  {
    forall i | i in t.postings ensures exists k :: k in t.cache && t.cache[k].tx == Some(i) {
      var k :| k in s.cache && s.cache[k].tx == Some(i);
      assert t.cache[k].tx == Some(i);
    }
  }

  // ---- runs -------------------------------------------------------------------------------------------

  datatype Call = Call(r: Request, now: int, audited: bool)

  function Run(s: State, calls: seq<Call>): State {
    if calls == [] then s
    else
      var c := calls[|calls| - 1];
      Served(Run(s, calls[..|calls| - 1]), c.r, c.now, c.audited).0
  }

  lemma FreshSound(maxFailures: nat, lockoutTTL: int)
    ensures Sound(Fresh(maxFailures, lockoutTTL))
  {
    WrapSame(0);
  }

  /** In every run, with any request denied, replayed, locked out or failing its audit: every transaction is a
      balanced double entry, successes and transactions correspond, and every account that is not a contra
      account holds exactly what the postings say, in one currency and never below zero in the books. */
  lemma {:induction false} RunSound(maxFailures: nat, lockoutTTL: int, calls: seq<Call>)
    ensures Sound(Run(Fresh(maxFailures, lockoutTTL), calls))
  {
    hide Sound, Served;
    if calls == [] {
      FreshSound(maxFailures, lockoutTTL);
    } else {
      var n := |calls| - 1;
      RunSound(maxFailures, lockoutTTL, calls[..n]);
      StepSound(Run(Fresh(maxFailures, lockoutTTL), calls[..n]), calls[n].r, calls[n].now, calls[n].audited);
    }
  }

  // ---- balances, for every account --------------------------------------------------------------------

  function BalanceOf(s: State, account: string): Int64 {
    if account in s.accounts then s.accounts[account].available else 0
  }

  /** The call passes every test and its movement stays. */
  predicate Transfers(s: State, c: Call) {
    && Precheck(s, c.r, c.now).None? && CacheKey(c.r) !in s.cache && c.audited
    && (c.r.account in s.accounts ==> s.accounts[c.r.account].currency == c.r.money.value.currency)
    && !Insufficient(c.r.kind, BalanceOf(s, c.r.account), c.r.money.value.amount)
  }

  /** What the call adds to this account. */
  function Gain(s: State, c: Call, account: string): int {
    if account == c.r.account && Transfers(s, c) then
      Delta(c.r.kind, Movable(c.r.kind, BalanceOf(s, account), c.r.money.value.amount))
    else 0
  }

  lemma GainBounds(s: State, c: Call, account: string)
    ensures -TWO63 < Gain(s, c, account) < TWO63
    ensures Gain(s, c, account) < 0 ==> 0 - Gain(s, c, account) <= BalanceOf(s, account)
    ensures Gain(s, c, account) < 0 ==> Outgoing(c.r.kind)
    ensures account == c.r.account && Transfers(s, c) && !Outgoing(c.r.kind) ==>
              c.r.money.Some? && Gain(s, c, account) == c.r.money.value.amount
    ensures account == c.r.account && Transfers(s, c) && Outgoing(c.r.kind) ==> Gain(s, c, account) < 0
  {
    hide CacheKey, Precheck;
    if Transfers(s, c) {
      PrecheckMoney(s, c.r, c.now);
    }
  }

  /** The balance moves by the gain, in 64 bits, and the statement by the gain itself. */
  lemma StepEffect(s: State, c: Call, account: string)
    ensures var t, g := Served(s, c.r, c.now, c.audited).0, Gain(s, c, account);
            && BalanceOf(t, account) == Wrap(BalanceOf(s, account) + g)
            && Statement(TxsOf(t, account)) == Statement(TxsOf(s, account)) + g
            && (account in s.accounts || g != 0 ==> account in t.accounts)
  {
    hide CacheKey, Precheck, Served, Settled, Wrap, Statement, TxsOf, Delta, Movable, Insufficient;
    WrapSame(BalanceOf(s, account));
    Reaches(s, c);
    if Precheck(s, c.r, c.now).None? && CacheKey(c.r) !in s.cache {
      var t := Opened(s, c.r.account, c.r.money.value.currency);
      assert TxsOf(t, account) == TxsOf(s, account) by { OpenedTxs(s, c.r.account, c.r.money.value.currency, account); }
      SettledEffect(t, c, account);
    }
  }

  lemma Reaches(s: State, c: Call)
    ensures if Precheck(s, c.r, c.now).None? && CacheKey(c.r) !in s.cache then
              && c.r.money.Some?
              && Served(s, c.r, c.now, c.audited)
                 == Settled(Opened(s, c.r.account, c.r.money.value.currency), c.r, c.now, c.audited)
            else Served(s, c.r, c.now, c.audited).0 == s
  {
    hide CacheKey, Precheck, Settled;
    if Precheck(s, c.r, c.now).None? {
      PrecheckMoney(s, c.r, c.now);
    }
  }

  lemma OpenedTxs(s: State, named: string, currency: string, account: string)
    ensures TxsOf(Opened(s, named, currency), account) == TxsOf(s, account)
  {
  }

  lemma SettledEffect(s: State, c: Call, account: string)
    requires c.r.account in s.accounts && c.r.money.Some?
    ensures var t, a, m := Settled(s, c.r, c.now, c.audited).0, s.accounts[c.r.account], c.r.money.value;
            var g := if account == c.r.account && a.currency == m.currency && c.audited
                        && !Insufficient(c.r.kind, a.available, m.amount)
                     then Delta(c.r.kind, Movable(c.r.kind, a.available, m.amount)) else 0;
            && BalanceOf(t, account) == Wrap(BalanceOf(s, account) + g)
            && Statement(TxsOf(t, account)) == Statement(TxsOf(s, account)) + g
            && (account in s.accounts ==> account in t.accounts)
  {
    hide CacheKey, Moved, Wrap, Statement;
    WrapSame(BalanceOf(s, account));
    MovedEffect(s, c.r, Movable(c.r.kind, s.accounts[c.r.account].available, c.r.money.value.amount), account);
  }

  lemma MovedEffect(s: State, r: Request, amount: Int64, account: string)
    requires r.account in s.accounts
    ensures var t, g := Moved(s, r, amount).0, if account == r.account then Delta(r.kind, amount) else 0;
            && BalanceOf(t, account) == Wrap(BalanceOf(s, account) + g)
            && Statement(TxsOf(t, account)) == Statement(TxsOf(s, account)) + g
            && (account in s.accounts ==> account in t.accounts)
  {
    hide CacheKey, Wrap, Entries;
    WrapSame(BalanceOf(s, account));
    var listed := TxsOf(Moved(s, r, amount).0, account);
    if account == r.account {
      assert listed[..|listed| - 1] == TxsOf(s, account);
    }
  }

  /** An account holds its statement's total, wrapped to 64 bits, and that total is not negative. */
  predicate FollowsStatement(s: State, account: string) {
    var total := Statement(TxsOf(s, account));
    total >= 0 && BalanceOf(s, account) == Wrap(total) && (account !in s.accounts ==> total == 0)
  }

  lemma StepFollows(s: State, c: Call, account: string)
    requires FollowsStatement(s, account)
    ensures FollowsStatement(Served(s, c.r, c.now, c.audited).0, account)
  {
    hide Served, Gain, Wrap, Statement, TxsOf, BalanceOf;
    var g, total := Gain(s, c, account), Statement(TxsOf(s, account));
    GainBounds(s, c, account);
    StepEffect(s, c, account);
    WrapAtMost(total);
    WrapAdd(total, g);
  }

  /** In every run every account, contra accounts too, holds exactly the wrapped total of its own statement, and
      that total never falls below zero. */
  lemma {:induction false} RunFollowsStatement(maxFailures: nat, lockoutTTL: int, calls: seq<Call>, account: string)
    ensures FollowsStatement(Run(Fresh(maxFailures, lockoutTTL), calls), account)
  {
    hide Served, FollowsStatement;
    if calls == [] {
      FreshFollows(maxFailures, lockoutTTL, account);
    } else {
      var n := |calls| - 1;
      RunFollowsStatement(maxFailures, lockoutTTL, calls[..n], account);
      StepFollows(Run(Fresh(maxFailures, lockoutTTL), calls[..n]), calls[n], account);
    }
  }

  lemma FreshFollows(maxFailures: nat, lockoutTTL: int, account: string)
    ensures FollowsStatement(Fresh(maxFailures, lockoutTTL), account)
  {
    WrapSame(0);
  }

  /** The guard the handlers lack: a movement into the account leaves room below the sign bit. */
  predicate Fits(s: State, c: Call) {
    Transfers(s, c) ==> Outgoing(c.r.kind) || BalanceOf(s, c.r.account) + c.r.money.value.amount < TWO63
  }

  /** From a non-negative balance one call leaves it non-negative exactly when the call fits; and then the balance
      changed by the gain itself, with nothing wrapped. */
  lemma StepNonNegativeIff(s: State, c: Call, account: string)
    requires BalanceOf(s, account) >= 0
    ensures var t := Served(s, c.r, c.now, c.audited).0;
            && (BalanceOf(t, account) >= 0 <==> (account == c.r.account ==> Fits(s, c)))
            && (BalanceOf(t, account) >= 0 ==> BalanceOf(t, account) == BalanceOf(s, account) + Gain(s, c, account))
  {
    hide Served, Wrap, Statement, TxsOf, BalanceOf, Transfers, Gain;
    var b, g := BalanceOf(s, account), Gain(s, c, account);
    GainBounds(s, c, account);
    StepEffect(s, c, account);
    NoGain(s, c, account);
    WrapSign(b + g);
  }

  lemma NoGain(s: State, c: Call, account: string)
    ensures account != c.r.account || !Transfers(s, c) ==> Gain(s, c, account) == 0
  {
  }

  /** Below twice the sign bit, wrapping keeps a number or makes it negative. */
  lemma WrapSign(x: int)
    requires 0 <= x < TWO64
    ensures if x < TWO63 then Wrap(x) == x else Wrap(x) < 0
  {
  }

  /** The balance is non-negative after every call of the run. */
  predicate StaysNonNegative(s: State, calls: seq<Call>, account: string) {
    && BalanceOf(Run(s, calls), account) >= 0
    && (calls != [] ==> StaysNonNegative(s, calls[..|calls| - 1], account))
  }

  predicate Exact(s: State, account: string) {
    BalanceOf(s, account) == Statement(TxsOf(s, account))
  }

  /** The balance is the statement's own total after every call of the run. */
  predicate StaysExact(s: State, calls: seq<Call>, account: string) {
    && Exact(Run(s, calls), account)
    && (calls != [] ==> StaysExact(s, calls[..|calls| - 1], account))
  }

  /** Every call of the run on this account fits where it comes. */
  predicate AllFit(s: State, calls: seq<Call>, account: string) {
    calls != [] ==>
      var n := |calls| - 1;
      AllFit(s, calls[..n], account) && (account == calls[n].r.account ==> Fits(Run(s, calls[..n]), calls[n]))
  }

  /** A run from the empty ledger keeps an account's balance non-negative exactly when every movement into it
      fits, and exactly then the balance never parts from the statement. */
  lemma {:induction false} NonNegativeIff(maxFailures: nat, lockoutTTL: int, calls: seq<Call>, account: string)
    ensures var s := Fresh(maxFailures, lockoutTTL);
            && (StaysNonNegative(s, calls, account) <==> AllFit(s, calls, account))
            && (StaysNonNegative(s, calls, account) <==> StaysExact(s, calls, account))
  {
    hide Served, Fits, BalanceOf, Exact, FollowsStatement;
    var s := Fresh(maxFailures, lockoutTTL);
    if calls == [] {
      FreshExact(maxFailures, lockoutTTL, account);
    } else {
      var n := |calls| - 1;
      NonNegativeIff(maxFailures, lockoutTTL, calls[..n], account);
      RunFollowsStatement(maxFailures, lockoutTTL, calls, account);
      LastCall(Run(s, calls[..n]), calls[n], account);
    }
  }

  lemma FreshExact(maxFailures: nat, lockoutTTL: int, account: string)
    ensures BalanceOf(Fresh(maxFailures, lockoutTTL), account) >= 0 && Exact(Fresh(maxFailures, lockoutTTL), account)
  {
  }

  lemma LastCall(s: State, c: Call, account: string)
    requires FollowsStatement(Served(s, c.r, c.now, c.audited).0, account)
    ensures var t := Served(s, c.r, c.now, c.audited).0;
            BalanceOf(s, account) >= 0 && Exact(s, account) ==>
              && (BalanceOf(t, account) >= 0 <==> (account == c.r.account ==> Fits(s, c)))
              && (BalanceOf(t, account) >= 0 <==> Exact(t, account))
  {
    hide Served, Fits, BalanceOf, Statement, TxsOf, Gain;
    if BalanceOf(s, account) >= 0 {
      StepNonNegativeIff(s, c, account);
      StepEffect(s, c, account);
    }
  }

  // ---- what a request is answered -------------------------------------------------------------------------

  /** An operator, a service, or the player whose account it is. */
  ghost predicate MayMove(r: Request) {
    exists actor ::
      && ResolveActor(r.ctx, r.meta) == Ok(actor)
      && (actor.kind == Operator || actor.kind == Service || (actor.kind == Player && actor.id == r.account))
  }

  predicate Named(r: Request) {
    r.account != "" && (r.kind == ToDevice ==> r.device != "")
  }

  predicate Stated(r: Request) {
    r.money.Some? && r.money.value.amount > 0 && r.money.value.currency != "" && r.idem != ""
  }

  /** The request itself is in order: it names what it must, comes from someone who may, states what it must, and the
      account is not under a lock at this time. */
  ghost predicate InOrder(s: State, c: Call) {
    && Named(c.r) && MayMove(c.r) && Stated(c.r)
    && (c.r.account in s.lockedUntil ==> s.lockedUntil[c.r.account] <= c.now)
  }

  /** Otherwise it is invalid, but denied where only the actor or the lock stands against it. */
  ghost function RefusalCode(r: Request): Code {
    if Named(r) && (!MayMove(r) || Stated(r)) then DENIED else INVALID
  }

  lemma InOrderIff(s: State, c: Call)
    ensures Precheck(s, c.r, c.now).None? <==> InOrder(s, c)
    ensures Precheck(s, c.r, c.now).Some? ==>
              var a := Precheck(s, c.r, c.now).value;
              a == Refusal(RefusalCode(c.r), a.reason)
  {
    hide ResolveActor;
    if Authorize(c.r).Ok? {
      var actor := ResolveActor(c.r.ctx, c.r.meta).value;
      assert MayMove(c.r);
    }
  }

  /** The account, if there is one, is in the request's currency. */
  predicate SameCurrency(s: State, r: Request) {
    r.money.Some? && (r.account in s.accounts ==> s.accounts[r.account].currency == r.money.value.currency)
  }

  /** The funds that the kind of request asks for are not there. */
  predicate Short(s: State, r: Request) {
    || (r.kind == Withdraw && r.money.Some? && BalanceOf(s, r.account) < r.money.value.amount)
    || (r.kind == ToDevice && BalanceOf(s, r.account) <= 0)
  }

  /** Money moves exactly for a request in order, with a new key, in the account's currency, with its funds there,
      whose audit succeeds. */
  lemma TransfersIff(s: State, c: Call)
    ensures Transfers(s, c) <==>
              InOrder(s, c) && CacheKey(c.r) !in s.cache && SameCurrency(s, c.r) && !Short(s, c.r) && c.audited
  {
    hide Precheck, InOrder, CacheKey;
    InOrderIff(s, c);
    if Precheck(s, c.r, c.now).None? {
      PrecheckMoney(s, c.r, c.now);
    }
  }

  /** The amount that moves: what is asked for, and to a device no more than there is. */
  function Asked(s: State, r: Request): int
    requires r.money.Some?
  {
    if r.kind == ToDevice && BalanceOf(s, r.account) < r.money.value.amount then BalanceOf(s, r.account)
    else r.money.value.amount
  }

  /** The two sides of a movement. */
  function Sides(r: Request, amount: Int64, currency: string): seq<Posting> {
    match r.kind
    case Deposit =>
      [Posting("operator_liability", "debit", amount, currency), Posting(r.account, "credit", amount, currency)]
    case Withdraw =>
      [Posting(r.account, "debit", amount, currency), Posting("operator_liability", "credit", amount, currency)]
    case ToDevice =>
      [Posting(r.account, "debit", amount, currency), Posting("device_escrow:" + r.device, "credit", amount, currency)]
    case ToAccount =>
      [Posting("device_escrow", "debit", amount, currency), Posting(r.account, "credit", amount, currency)]
  }

  /** What a movement of this amount answers and leaves behind: the amount, whether that is less than was asked for,
      the number of the transaction, which is the last of the statement and has these two sides, and the balance
      after it. The answer is remembered, and failures and lock are cleared. */
  predicate MovementAnswer(s: State, r: Request, moved: Int64, t: State, answer: Response) {
    && r.money.Some?
    && var id, currency, was := s.nextTx + 1, r.money.value.currency, BalanceOf(s, r.account);
    var incoming := r.kind == Deposit || r.kind == ToAccount;
    var now := Wrap(if incoming then was + moved else was - moved);
    && answer == Response(OK, "", Some(id), moved, moved < r.money.value.amount, Some(Money(now, currency)))
    && t.accounts == s.accounts[r.account := Account(currency, now)]
    && t.transactions == s.transactions[r.account := TxsOf(s, r.account) + [Tx(id, r.account, r.kind, moved, currency)]]
    && t.postings == s.postings[id := Sides(r, moved, currency)]
    && t.cache == s.cache[CacheKey(r) := answer] && t.nextTx == id
    && t.failures == s.failures - {r.account} && t.lockedUntil == s.lockedUntil - {r.account}
    && t.maxFailures == s.maxFailures && t.lockoutTTL == s.lockoutTTL
  }

  lemma TransferAnswer(s: State, c: Call)
    requires Transfers(s, c)
    ensures c.r.money.Some? && 0 < Asked(s, c.r) < TWO63
    ensures var (t, answer) := Served(s, c.r, c.now, c.audited); MovementAnswer(s, c.r, Asked(s, c.r), t, answer)
  {
    hide CacheKey, Precheck, Served, Settled, MovementAnswer, Moved;
    Reaches(s, c);
    AskedBounds(s, c);
    var r, currency := c.r, c.r.money.value.currency;
    var ready := Opened(s, r.account, currency);
    SettledMoves(ready, c);
    MovedAnswers(ready, r, Asked(s, r));
    var (t, answer) := Moved(ready, r, Asked(s, r));
    OpenedAnswers(s, r, Asked(s, r), t, answer);
  }

  lemma AskedBounds(s: State, c: Call)
    requires Transfers(s, c)
    ensures c.r.money.Some? && 0 < Asked(s, c.r) < TWO63 && SameCurrency(s, c.r) && !Short(s, c.r)
    ensures Asked(s, c.r) == Movable(c.r.kind, BalanceOf(s, c.r.account), c.r.money.value.amount)
  {
    hide CacheKey, Precheck, InOrder;
    TransfersIff(s, c);
    PrecheckMoney(s, c.r, c.now);
  }

  lemma SettledMoves(s: State, c: Call)
    requires c.r.account in s.accounts && c.r.money.Some? && c.audited && SameCurrency(s, c.r) && !Short(s, c.r)
    ensures Settled(s, c.r, c.now, c.audited)
            == Moved(s, c.r, Movable(c.r.kind, s.accounts[c.r.account].available, c.r.money.value.amount))
  {
    hide CacheKey, Moved, Wrap;
  }

  lemma MovedAnswers(s: State, r: Request, amount: Int64)
    requires r.account in s.accounts && SameCurrency(s, r)
    ensures var (t, answer) := Moved(s, r, amount); MovementAnswer(s, r, amount, t, answer)
  {
    hide CacheKey, Wrap;
  }

  /** Opening the account first makes no difference to that. */
  lemma OpenedAnswers(s: State, r: Request, moved: Int64, t: State, answer: Response)
    requires r.money.Some? && MovementAnswer(Opened(s, r.account, r.money.value.currency), r, moved, t, answer)
    ensures MovementAnswer(s, r, moved, t, answer)
  {
    hide CacheKey, Wrap, Sides;
    OpenedTxs(s, r.account, r.money.value.currency, r.account);
  }

  /** A request in order, with a new key and in the account's currency, for funds that are not there. */
  ghost predicate Shortfall(s: State, c: Call) {
    InOrder(s, c) && CacheKey(c.r) !in s.cache && SameCurrency(s, c.r) && Short(s, c.r)
  }

  /** A denial with the balance, counted as one failure and remembered; a new account is opened empty. */
  predicate DenialAnswer(s: State, r: Request, now: int, t: State, answer: Response) {
    && r.money.Some?
    && var failed := (if r.account in s.failures then s.failures[r.account] else 0) + 1;
    && answer == Response(DENIED, "insufficient balance", None, 0, false,
                          Some(Money(BalanceOf(s, r.account), r.money.value.currency)))
    && t == s.(accounts := s.accounts[r.account := Account(r.money.value.currency, BalanceOf(s, r.account))],
               cache := s.cache[CacheKey(r) := answer], failures := s.failures[r.account := failed],
               lockedUntil := if failed < s.maxFailures then s.lockedUntil
                              else s.lockedUntil[r.account := now + s.lockoutTTL])
  }

  lemma ShortfallAnswer(s: State, c: Call)
    requires Shortfall(s, c)
    ensures var (t, answer) := Served(s, c.r, c.now, c.audited); DenialAnswer(s, c.r, c.now, t, answer)
  {
    hide CacheKey, Precheck, InOrder, Served, Settled, DenialAnswer;
    InOrderIff(s, c);
    Reaches(s, c);
    var ready := Opened(s, c.r.account, c.r.money.value.currency);
    SettledDenies(ready, c);
    var (t, answer) := Settled(ready, c.r, c.now, c.audited);
    OpenedDenial(s, c.r, c.now, t, answer);
  }

  lemma SettledDenies(s: State, c: Call)
    requires c.r.account in s.accounts && SameCurrency(s, c.r) && Short(s, c.r)
    ensures var (t, answer) := Settled(s, c.r, c.now, c.audited); DenialAnswer(s, c.r, c.now, t, answer)
  {
    hide CacheKey, Moved;
    assert s.accounts[c.r.account := s.accounts[c.r.account]] == s.accounts;
  }

  lemma OpenedDenial(s: State, r: Request, now: int, t: State, answer: Response)
    requires r.money.Some? && DenialAnswer(Opened(s, r.account, r.money.value.currency), r, now, t, answer)
    ensures DenialAnswer(s, r, now, t, answer)
  {
    hide CacheKey;
  }

  /** An error, with nothing remembered and every balance, posting, statement, failure and lock as before. */
  ghost predicate ErrorAnswer(s: State, t: State, answer: Response) {
    && answer == Refusal(ERROR, "audit unavailable")
    && (forall a :: BalanceOf(t, a) == BalanceOf(s, a)) && (forall a :: TxsOf(t, a) == TxsOf(s, a))
    && t.postings == s.postings && t.cache == s.cache && t.failures == s.failures && t.lockedUntil == s.lockedUntil
    && t.maxFailures == s.maxFailures && t.lockoutTTL == s.lockoutTTL && t.nextTx == s.nextTx + 1
  }

  /** A movement whose audit failed: the same request can be sent again and then moves the same amount. */
  lemma UnauditedAnswer(s: State, c: Call)
    requires !c.audited && Transfers(s, c.(audited := true))
    ensures var (t, answer) := Served(s, c.r, c.now, c.audited);
            && ErrorAnswer(s, t, answer)
            && Transfers(t, c.(audited := true)) && c.r.money.Some? && Asked(t, c.r) == Asked(s, c.r)
  {
    hide CacheKey, Precheck, Served, Settled, ErrorAnswer, InOrder, MayMove;
    var again := c.(audited := true);
    TransfersIff(s, again);
    AskedBounds(s, again);
    Reaches(s, c);
    InOrderIff(s, c);
    Audits(s, c);
    var ready := Opened(s, c.r.account, c.r.money.value.currency);
    UnauditedSettled(ready, c);
    OpenedError(s, c.r);
    var t := Undone(ready, c.r.account);
    StillInOrder(s, t, again);
    TransfersIff(t, again);
  }

  lemma UnauditedSettled(s: State, c: Call)
    requires c.r.account in s.accounts && c.r.money.Some? && !c.audited && SameCurrency(s, c.r) && !Short(s, c.r)
    ensures Settled(s, c.r, c.now, c.audited) == (Undone(s, c.r.account), Refusal(ERROR, "audit unavailable"))
  {
    hide CacheKey, Moved, Wrap;
  }

  lemma OpenedError(s: State, r: Request)
    requires r.money.Some? && SameCurrency(s, r)
    ensures var t := Undone(Opened(s, r.account, r.money.value.currency), r.account);
            && ErrorAnswer(s, t, Refusal(ERROR, "audit unavailable"))
            && SameCurrency(t, r) && (Short(t, r) <==> Short(s, r))
            && BalanceOf(t, r.account) == BalanceOf(s, r.account)
            && t.cache == s.cache && t.lockedUntil == s.lockedUntil
  {
  }

  lemma StillInOrder(s: State, t: State, c: Call)
    requires InOrder(s, c) && t.lockedUntil == s.lockedUntil
    ensures InOrder(t, c)
  {
    hide MayMove;
  }

  /** In every other case nothing changes: the request is not in order, its key has been answered, or it is in
      another currency than the account's. */
  lemma OtherAnswers(s: State, c: Call)
    requires !Transfers(s, c.(audited := true)) && !Shortfall(s, c)
    ensures var (t, answer) := Served(s, c.r, c.now, c.audited);
            && t == s
            && (if !InOrder(s, c) then answer == Refusal(RefusalCode(c.r), answer.reason)
                else if CacheKey(c.r) in s.cache then answer == s.cache[CacheKey(c.r)]
                else answer == Refusal(INVALID, "currency mismatch for account"))
  {
    hide CacheKey, Precheck, InOrder, Settled, Transfers;
    InOrderIff(s, c);
    TransfersIff(s, c.(audited := true));
    Audits(s, c);
    if InOrder(s, c) && CacheKey(c.r) !in s.cache {
      PrecheckMoney(s, c.r, c.now);
      SettledMismatch(s, c);
    }
  }

  lemma SettledMismatch(s: State, c: Call)
    requires c.r.money.Some? && c.r.account in s.accounts && !SameCurrency(s, c.r)
    ensures Settled(s, c.r, c.now, c.audited) == (s, Refusal(INVALID, "currency mismatch for account"))
  {
    hide CacheKey, Moved;
  }

  lemma Audits(s: State, c: Call)
    ensures InOrder(s, c.(audited := true)) == InOrder(s, c)
  {
    hide MayMove;
  }

  // ---- statements and postings ------------------------------------------------------------------------

  /** The posted sides of a listed transaction are those of its kind. */
  ghost predicate Backed(postings: map<nat, seq<Posting>>, account: string, tx: Tx) {
    && tx.account == account && tx.amount > 0 && tx.id in postings
    && var debit := Posting(account, "debit", tx.amount, tx.currency);
    var credit := Posting(account, "credit", tx.amount, tx.currency);
    match tx.kind
    case Deposit => postings[tx.id] == [Posting("operator_liability", "debit", tx.amount, tx.currency), credit]
    case Withdraw => postings[tx.id] == [debit, Posting("operator_liability", "credit", tx.amount, tx.currency)]
    case ToDevice => exists d :: d != "" && postings[tx.id] == [debit, Escrow(d, tx)]
    case ToAccount => postings[tx.id] == [Posting("device_escrow", "debit", tx.amount, tx.currency), credit]
  }

  function Escrow(device: string, tx: Tx): Posting {
    Posting("device_escrow:" + device, "credit", tx.amount, tx.currency)
  }

  ghost predicate AllBacked(s: State) {
    forall a, j :: 0 <= j < |TxsOf(s, a)| ==> Backed(s.postings, a, TxsOf(s, a)[j])
  }

  ghost predicate AllListed(s: State) {
    forall i :: i in s.postings ==> exists a, j :: 0 <= j < |TxsOf(s, a)| && TxsOf(s, a)[j].id == i
  }

  ghost predicate ListedOnce(s: State) {
    && (forall a, j :: 0 <= j < |TxsOf(s, a)| ==> TxsOf(s, a)[j].id <= s.nextTx)
    && (forall a, b, j, k ::
          0 <= j < |TxsOf(s, a)| && 0 <= k < |TxsOf(s, b)| && TxsOf(s, a)[j].id == TxsOf(s, b)[k].id ==>
            a == b && j == k)
  }

  /** Every line of every statement has its two sides posted, every posting belongs to a line, and no number is on
      two lines. */
  ghost predicate Matched(s: State) {
    AllBacked(s) && AllListed(s) && ListedOnce(s)
  }

  lemma MatchedSame(s: State, t: State)
    requires Matched(s) && t.postings == s.postings && t.nextTx >= s.nextTx && forall a :: TxsOf(t, a) == TxsOf(s, a)
    ensures Matched(t)
  {
    hide Backed, TxsOf;
    forall i | i in t.postings ensures exists a, j :: 0 <= j < |TxsOf(t, a)| && TxsOf(t, a)[j].id == i {
      var a, j :| 0 <= j < |TxsOf(s, a)| && TxsOf(s, a)[j].id == i;
      assert TxsOf(t, a)[j].id == i;
    }
  }

  lemma TxsMoved(s: State, r: Request, moved: Int64, t: State, answer: Response, account: string)
    requires MovementAnswer(s, r, moved, t, answer)
    ensures TxsOf(t, account) == TxsOf(s, account) + if account != r.account then []
                                 else [Tx(s.nextTx + 1, r.account, r.kind, moved, r.money.value.currency)]
  {
    hide CacheKey, Wrap, Sides;
  }

  lemma BackedStays(s: State, r: Request, moved: Int64, t: State, answer: Response)
    requires AllBacked(s) && ListedOnce(s) && MovementAnswer(s, r, moved, t, answer) && moved > 0
    requires r.kind == ToDevice ==> r.device != ""
    ensures AllBacked(t)
  {
    hide CacheKey, Wrap, TxsOf, Backed;
    forall a, j | 0 <= j < |TxsOf(t, a)| ensures Backed(t.postings, a, TxsOf(t, a)[j]) {
      TxsMoved(s, r, moved, t, answer, a);
      if j < |TxsOf(s, a)| {
        BackedIn(s.postings, a, TxsOf(s, a)[j]);
        BackedOld(s.postings, t.postings, a, TxsOf(s, a)[j]);
      } else {
        BackedNew(t.postings, r, TxsOf(t, a)[j]);
      }
    }
  }

  lemma BackedIn(p: map<nat, seq<Posting>>, account: string, tx: Tx)
    requires Backed(p, account, tx)
    ensures tx.id in p
  {
  }

  lemma BackedOld(p: map<nat, seq<Posting>>, q: map<nat, seq<Posting>>, account: string, tx: Tx)
    requires Backed(p, account, tx) && tx.id in q && q[tx.id] == p[tx.id]
    ensures Backed(q, account, tx)
  {
  }

  lemma BackedNew(p: map<nat, seq<Posting>>, r: Request, tx: Tx)
    requires tx.account == r.account && tx.kind == r.kind && tx.amount > 0
    requires tx.id in p && p[tx.id] == Sides(r, tx.amount, tx.currency) && (r.kind == ToDevice ==> r.device != "")
    ensures Backed(p, r.account, tx)
  {
    assert r.kind == ToDevice ==> p[tx.id][1] == Escrow(r.device, tx);
  }

  lemma ListedStays(s: State, r: Request, moved: Int64, t: State, answer: Response)
    requires AllListed(s) && MovementAnswer(s, r, moved, t, answer)
    ensures AllListed(t)
  {
    hide CacheKey, Wrap, TxsOf, Sides;
    forall i | i in t.postings ensures exists a, j :: 0 <= j < |TxsOf(t, a)| && TxsOf(t, a)[j].id == i {
      if i == t.nextTx {
        TxsMoved(s, r, moved, t, answer, r.account);
        assert TxsOf(t, r.account)[|TxsOf(s, r.account)|].id == i;
      } else {
        var a, j :| 0 <= j < |TxsOf(s, a)| && TxsOf(s, a)[j].id == i;
        TxsMoved(s, r, moved, t, answer, a);
        assert TxsOf(t, a)[j].id == i;
      }
    }
  }

  lemma OnceStays(s: State, r: Request, moved: Int64, t: State, answer: Response)
    requires ListedOnce(s) && MovementAnswer(s, r, moved, t, answer)
    ensures ListedOnce(t)
  {
    hide CacheKey, Wrap, TxsOf, Sides;
    forall a ensures TxsOf(t, a) == TxsOf(s, a) + if a != r.account then []
                                    else [Tx(s.nextTx + 1, r.account, r.kind, moved, r.money.value.currency)]
    {
      TxsMoved(s, r, moved, t, answer, a);
    }
    forall a, j | 0 <= j < |TxsOf(t, a)|
      ensures TxsOf(t, a)[j].id <= t.nextTx
      ensures TxsOf(t, a)[j].id == t.nextTx <==> a == r.account && j == |TxsOf(s, a)|
      ensures TxsOf(t, a)[j].id < t.nextTx ==> j < |TxsOf(s, a)| && TxsOf(t, a)[j] == TxsOf(s, a)[j]
    {
    }
  }

  lemma StepMatched(s: State, c: Call)
    requires Matched(s)
    ensures Matched(Served(s, c.r, c.now, c.audited).0)
  {
    hide Served, Transfers, Shortfall, CacheKey, Wrap, Sides, AllBacked, AllListed, ListedOnce;
    var (t, answer) := Served(s, c.r, c.now, c.audited);
    if Transfers(s, c) {
      TransferAnswer(s, c);
      TransferDevice(s, c);
      BackedStays(s, c.r, Asked(s, c.r), t, answer);
      ListedStays(s, c.r, Asked(s, c.r), t, answer);
      OnceStays(s, c.r, Asked(s, c.r), t, answer);
    } else if Shortfall(s, c) {
      ShortfallAnswer(s, c);
      MatchedSame(s, t);
    } else if Transfers(s, c.(audited := true)) {
      NotAudited(s, c);
      UnauditedAnswer(s, c);
      MatchedSame(s, t);
    } else {
      OtherAnswers(s, c);
    }
  }

  lemma TransferDevice(s: State, c: Call)
    requires Transfers(s, c)
    ensures c.r.kind == ToDevice ==> c.r.device != ""
  {
    hide CacheKey, Precheck;
    PrecheckMoney(s, c.r, c.now);
  }

  lemma NoneMatched(maxFailures: nat, lockoutTTL: int)
    ensures Matched(Fresh(maxFailures, lockoutTTL))
  {
  }

  lemma {:induction false} RunMatched(maxFailures: nat, lockoutTTL: int, calls: seq<Call>)
    ensures Matched(Run(Fresh(maxFailures, lockoutTTL), calls))
  {
    hide Matched, Served;
    if calls == [] {
      NoneMatched(maxFailures, lockoutTTL);
    } else {
      var n := |calls| - 1;
      RunMatched(maxFailures, lockoutTTL, calls[..n]);
      StepMatched(Run(Fresh(maxFailures, lockoutTTL), calls[..n]), calls[n]);
    }
  }

  // ---- the lockout, counted from the answers ------------------------------------------------------------------

  /** The shortfalls of an account since its last movement. */
  ghost function Streak(s: State, calls: seq<Call>, account: string): nat {
    if calls == [] then 0
    else
      var n := |calls| - 1;
      var t, c := Run(s, calls[..n]), calls[n];
      if c.r.account != account then Streak(s, calls[..n], account)
      else if Transfers(t, c) then 0
      else if Shortfall(t, c) then Streak(s, calls[..n], account) + 1
      else Streak(s, calls[..n], account)
  }

  /** When the last of them was. */
  ghost function LastShortfall(s: State, calls: seq<Call>, account: string): int {
    if calls == [] then 0
    else
      var n := |calls| - 1;
      if calls[n].r.account == account && Shortfall(Run(s, calls[..n]), calls[n]) then calls[n].now
      else LastShortfall(s, calls[..n], account)
  }

  /** The failures kept for an account are this many, and it has a lock, from its last failure, exactly if they are
      at the limit. */
  ghost predicate Counts(s: State, account: string, streak: nat, last: int) {
    && (account in s.failures <==> streak > 0) && (account in s.failures ==> s.failures[account] == streak)
    && (account in s.lockedUntil <==> streak > 0 && streak >= s.maxFailures)
    && (account in s.lockedUntil ==> s.lockedUntil[account] == last + s.lockoutTTL)
  }

  /** In every run an account carries a lock, in force or run out, exactly while its shortfalls since its last
      movement are at the limit or past it; and the lock lasts the lockout time from the last shortfall. */
  lemma {:induction false} LockedIff(maxFailures: nat, lockoutTTL: int, calls: seq<Call>, account: string)
    ensures var s0 := Fresh(maxFailures, lockoutTTL);
            var s, streak := Run(s0, calls), Streak(s0, calls, account);
            && s.maxFailures == maxFailures && s.lockoutTTL == lockoutTTL
            && Counts(s, account, streak, LastShortfall(s0, calls, account))
  {
    hide Served, Counts, Transfers, Shortfall;
    var s0 := Fresh(maxFailures, lockoutTTL);
    if calls == [] {
      NoneCounted(maxFailures, lockoutTTL, account);
    } else {
      var n := |calls| - 1;
      LockedIff(maxFailures, lockoutTTL, calls[..n], account);
      StepCounts(Run(s0, calls[..n]), calls[n], account, Streak(s0, calls[..n], account),
                 LastShortfall(s0, calls[..n], account));
    }
  }

  lemma NoneCounted(maxFailures: nat, lockoutTTL: int, account: string)
    ensures Counts(Fresh(maxFailures, lockoutTTL), account, 0, 0)
  {
  }

  lemma StepCounts(s: State, c: Call, account: string, streak: nat, last: int)
    requires Counts(s, account, streak, last)
    ensures var t := Served(s, c.r, c.now, c.audited).0;
            && t.maxFailures == s.maxFailures && t.lockoutTTL == s.lockoutTTL
            && if c.r.account != account then Counts(t, account, streak, last)
               else if Transfers(s, c) then Counts(t, account, 0, if Shortfall(s, c) then c.now else last)
               else if Shortfall(s, c) then Counts(t, account, streak + 1, c.now)
               else Counts(t, account, streak, last)
  {
    hide Served, Transfers, Shortfall, CacheKey, Wrap, Sides;
    if c.r.account != account {
      StepOthers(s, c.r, c.now, c.audited, account);
    }
    if Transfers(s, c) {
      TransferAnswer(s, c);
    } else if Shortfall(s, c) {
      ShortfallAnswer(s, c);
    } else if Transfers(s, c.(audited := true)) {
      NotAudited(s, c);
      UnauditedAnswer(s, c);
    } else {
      OtherAnswers(s, c);
    }
  }

  lemma NotAudited(s: State, c: Call)
    requires !Transfers(s, c) && Transfers(s, c.(audited := true))
    ensures !c.audited
  {
    hide CacheKey, Precheck;
  }

  /** Two states agree on an account: its balance, its lock and its failures. */
  predicate SameFor(s: State, t: State, account: string) {
    && (account in s.accounts <==> account in t.accounts)
    && (account in s.accounts ==> t.accounts[account] == s.accounts[account])
    && (account in s.lockedUntil <==> account in t.lockedUntil)
    && (account in s.lockedUntil ==> t.lockedUntil[account] == s.lockedUntil[account])
    && (account in s.failures <==> account in t.failures)
    && (account in s.failures ==> t.failures[account] == s.failures[account])
  }

  lemma MovedOthers(s: State, r: Request, amount: Int64, account: string)
    requires r.account in s.accounts && account != r.account
    ensures SameFor(s, Moved(s, r, amount).0, account)
  {
    hide CacheKey, Wrap, Entries;
  }

  lemma DeniedOthers(s: State, r: Request, now: int, account: string)
    requires r.account in s.accounts && account != r.account
    ensures SameFor(s, Denied(s, r, now).0, account)
  {
    hide CacheKey;
  }

  lemma UndoneOthers(s: State, named: string, account: string)
    ensures SameFor(s, s, account) && SameFor(s, Undone(s, named), account)
  {
  }

  lemma SettledOthers(s: State, r: Request, now: int, audited: bool, account: string)
    requires r.account in s.accounts && r.money.Some? && account != r.account
    ensures SameFor(s, Settled(s, r, now, audited).0, account)
  {
    hide CacheKey, Moved, Denied, SameFor;
    UndoneOthers(s, r.account, account);
    DeniedOthers(s, r, now, account);
    MovedOthers(s, r, Movable(r.kind, s.accounts[r.account].available, r.money.value.amount), account);
  }

  lemma StepOthers(s: State, r: Request, now: int, audited: bool, account: string)
    requires account != r.account || (account in s.lockedUntil && now < s.lockedUntil[account])
    ensures SameFor(s, Served(s, r, now, audited).0, account)
  {
    hide CacheKey, Settled, Authorize;
    if Precheck(s, r, now).None? && CacheKey(r) !in s.cache {
      PrecheckMoney(s, r, now);
      SettledOthers(Opened(s, r.account, r.money.value.currency), r, now, audited, account);
    }
  }

  /** The failure that reaches the limit locks the account for the lockout time. */
  lemma LastFailureLocks(s: State, r: Request, now: int, audited: bool)
    requires Precheck(s, r, now).None? && CacheKey(r) !in s.cache && Served(s, r, now, audited).1.code == DENIED
    requires (if r.account in s.failures then s.failures[r.account] else 0) + 1 >= s.maxFailures
    ensures var t := Served(s, r, now, audited).0;
            r.account in t.lockedUntil && t.lockedUntil[r.account] == now + s.lockoutTTL
  {
    hide CacheKey, Precheck, Moved;
    PrecheckMoney(s, r, now);
    var t := Opened(s, r.account, r.money.value.currency);
    MovedAnswer(t, r, Movable(r.kind, t.accounts[r.account].available, r.money.value.amount));
  }

  lemma MovedAnswer(s: State, r: Request, amount: Int64)
    requires r.account in s.accounts
    ensures Moved(s, r, amount).1.code == OK
  {
    hide CacheKey, Wrap, Entries;
  }

  /** A locked account is frozen: no run of requests that all come before the lock's end, for this account, moves
      its balance or its lock. */
  lemma {:induction false} LockoutFreezes(s: State, account: string, calls: seq<Call>)
    requires account in s.lockedUntil
    requires forall i :: 0 <= i < |calls| && calls[i].r.account == account ==> calls[i].now < s.lockedUntil[account]
    ensures SameFor(s, Run(s, calls), account)
  {
    hide Served;
    if calls != [] {
      var c := calls[|calls| - 1];
      LockoutFreezes(s, account, calls[..|calls| - 1]);
      StepOthers(Run(s, calls[..|calls| - 1]), c.r, c.now, c.audited, account);
    }
  }

  // ---- where the laws stop ----------------------------------------------------------------------------

  function ByOperator(kind: Kind, account: string, device: string, amount: Int64, idem: string): Request {
    Request(kind, account, device, Some(Money(amount, "USD")), idem, None,
            Some(RequestMeta(Some(WireActor("op", Operator)))))
  }

  /** An unlocked, unanswered operator request with funds behind it moves its amount. */
  lemma OperatorMoves(s: State, r: Request)
    requires r.money.Some? && r == ByOperator(r.kind, r.account, r.device, r.money.value.amount, r.idem)
    requires r.account != "" && r.idem != "" && r.money.value.amount > 0 && (r.kind == ToDevice ==> r.device != "")
    requires r.account !in s.lockedUntil && CacheKey(r) !in s.cache
    requires r.account in s.accounts ==> s.accounts[r.account].currency == "USD"
    requires Outgoing(r.kind) ==> r.account in s.accounts && r.money.value.amount <= s.accounts[r.account].available
    ensures Served(s, r, 0, true) == Moved(Opened(s, r.account, "USD"), r, r.money.value.amount)
  {
    hide Wrap, CacheKey, Entries, Moved;
  }

  /** The balance law fails past the sign bit: two deposits within range leave a negative balance. */
  lemma BalanceCanWrap() returns (calls: seq<Call>)
    ensures var s := Run(Fresh(5, 900), calls);
            "p" in s.accounts && !Contra("p") && s.accounts["p"].available < 0 && Books(s, "p") == TWO63
  {
    hide Served, Moved, CacheKey, Sound;
    var a, b := ByOperator(Deposit, "p", "", TWO63 - 1, "1"), ByOperator(Deposit, "p", "", 1, "2");
    calls := [Call(a, 0, true), Call(b, 0, true)];
    var s0 := Fresh(5, 900);
    var s1 := Served(s0, a, 0, true).0;
    OperatorMoves(s0, a);
    MovedFacts(Opened(s0, "p", "USD"), a, TWO63 - 1);
    BooksAfter(Opened(s0, "p", "USD"), a, TWO63 - 1, "p");
    assert CacheKey(b) != CacheKey(a) by { DifferentIdem(a, b); }
    OperatorMoves(s1, b);
    MovedFacts(s1, b, 1);
    BooksAfter(s1, b, 1, "p");
    RunTwo(s0, calls);
    WrapValues();
  }

  lemma WrapValues()
    ensures Wrap(TWO63 - 1) == TWO63 - 1 && Wrap(TWO63) == -TWO63 && Wrap(1) == 1 && Wrap(2) == 2
  {
  }

  lemma DifferentIdem(a: Request, b: Request)
    requires a.kind == b.kind && a.account == b.account && a.idem != b.idem
    ensures CacheKey(a) != CacheKey(b)
  {
    if CacheKey(a) == CacheKey(b) {
      CacheKeyInjective(a, b);
    }
  }

  lemma RunTwo(s: State, calls: seq<Call>)
    requires |calls| == 2
    ensures var t := Served(s, calls[0].r, calls[0].now, calls[0].audited).0;
            Run(s, calls) == Served(t, calls[1].r, calls[1].now, calls[1].audited).0
  {
    hide Served;
    assert calls[..1] == [calls[0]] && [calls[0]][..0] == [];
    assert Run(s, [calls[0]]) == Served(s, calls[0].r, calls[0].now, calls[0].audited).0;
  }

  lemma MovedFacts(s: State, r: Request, amount: Int64)
    requires r.account in s.accounts
    ensures var t := Moved(s, r, amount).0;
            && r.account in t.accounts && t.nextTx == s.nextTx + 1
            && t.accounts[r.account]
               == Account(s.accounts[r.account].currency, Wrap(s.accounts[r.account].available + Delta(r.kind, amount)))
            && t.cache.Keys == s.cache.Keys + {CacheKey(r)} && r.account !in t.lockedUntil
            && t.postings.Keys == s.postings.Keys + {t.nextTx}
  {
    hide Wrap, CacheKey, Entries;
  }

  /** A movement between an account and itself leaves the books alone. */
  lemma BooksSelf(s: State, r: Request, amount: Int64)
    requires r.account in s.accounts && r.account == ContraOf(r)
    requires forall i :: i in s.postings ==> i <= s.nextTx
    ensures Books(Moved(s, r, amount).0, r.account) == Books(s, r.account)
  {
    hide ContraOf, Wrap, CacheKey;
    var t := Moved(s, r, amount).0;
    NetSame(s.postings, t.postings, s.nextTx, r.account);
    var e := Entries(r, amount, s.accounts[r.account].currency);
    assert e[..1] == [e[0]] && [e[0]][..0] == [];
    assert NetOf([e[0]], r.account) == 0 - amount;
  }

  /** In every reachable state this account's balance is what the books say. */
  ghost predicate AlwaysInBooks(account: string) {
    forall maxFailures, lockoutTTL, calls ::
      var s := Run(Fresh(maxFailures, lockoutTTL), calls);
      account in s.accounts ==> s.accounts[account].available == Wrap(Books(s, account))
  }

  ghost predicate OutOfBooks(s: State, account: string) {
    account in s.accounts && s.accounts[account].available != Wrap(Books(s, account))
  }

  /** A payment into a contra account from itself. */
  lemma SelfIncoming(account: string) returns (calls: seq<Call>)
    requires account == "operator_liability" || account == "device_escrow"
    ensures OutOfBooks(Run(Fresh(5, 900), calls), account)
  {
    hide Served, Moved, CacheKey, Wrap;
    var s0 := Fresh(5, 900);
    var ready := Opened(s0, account, "USD");
    var r := ByOperator(if account == "device_escrow" then ToAccount else Deposit, account, "", 1, "1");
    calls := [Call(r, 0, true)];
    OperatorMoves(s0, r);
    MovedFacts(ready, r, 1);
    BooksSelf(ready, r, 1);
    RunOne(s0, calls);
    WrapValues();
    WrapSame(0);
  }

  lemma RunOne(s: State, calls: seq<Call>)
    requires |calls| == 1
    ensures Run(s, calls) == Served(s, calls[0].r, calls[0].now, calls[0].audited).0
  {
    hide Served;
    assert calls[..0] == [];
  }

  /** A transfer from a device's escrow name to that device. */
  lemma SelfDevice(device: string) returns (calls: seq<Call>)
    requires device != ""
    ensures OutOfBooks(Run(Fresh(5, 900), calls), "device_escrow:" + device)
  {
    hide Served, Moved, CacheKey, Wrap;
    var account := "device_escrow:" + device;
    assert account[0] == 'd';
    var s0 := Fresh(5, 900);
    var ready := Opened(s0, account, "USD");
    var a, b := ByOperator(Deposit, account, "", 2, "1"), ByOperator(ToDevice, account, device, 1, "2");
    calls := [Call(a, 0, true), Call(b, 0, true)];
    WrapValues();
    OperatorMoves(s0, a);
    MovedFacts(ready, a, 2);
    BooksAfter(ready, a, 2, account);
    var s1 := Served(s0, a, 0, true).0;
    DifferentKind(a, b);
    OperatorMoves(s1, b);
    MovedFacts(s1, b, 1);
    BooksSelf(s1, b, 1);
    RunTwo(s0, calls);
  }

  lemma ContraBreaks(account: string) returns (calls: seq<Call>)
    requires Contra(account)
    ensures OutOfBooks(Run(Fresh(5, 900), calls), account)
  {
    hide OutOfBooks, Run;
    if account == "operator_liability" || account == "device_escrow" {
      calls := SelfIncoming(account);
    } else {
      var device := account[|"device_escrow:"|..];
      assert account == "device_escrow:" + device;
      calls := SelfDevice(device);
    }
  }

  lemma DifferentKind(a: Request, b: Request)
    requires a.kind != b.kind
    ensures CacheKey(a) != CacheKey(b)
  {
  }

  /** The accounts whose balance follows the books in every run are exactly those that are not contra accounts. */
  lemma AlwaysInBooksIff(account: string)
    ensures AlwaysInBooks(account) <==> !Contra(account)
  {
    hide Run, Books, Wrap, Contra, OnePerKey;
    if Contra(account) {
      var calls := ContraBreaks(account);
      assert OutOfBooks(Run(Fresh(5, 900), calls), account);
    } else {
      forall maxFailures, lockoutTTL, calls
        ensures var s := Run(Fresh(maxFailures, lockoutTTL), calls);
                account in s.accounts ==> s.accounts[account].available == Wrap(Books(s, account))
      {
        RunSound(maxFailures, lockoutTTL, calls);
        assert InBooks(Run(Fresh(maxFailures, lockoutTTL), calls), account);
      }
    }
  }

  // ---- idempotency ------------------------------------------------------------------------------------

  lemma StepCacheStable(s: State, r: Request, now: int, audited: bool, key: (Kind, string))
    requires key in s.cache
    ensures var t := Served(s, r, now, audited).0; key in t.cache && t.cache[key] == s.cache[key]
  {
    hide Precheck, CacheKey, Settled;
    if Precheck(s, r, now).None? && CacheKey(r) !in s.cache {
      PrecheckMoney(s, r, now);
      SettledCache(Opened(s, r.account, r.money.value.currency), r, now, audited);
    }
  }

  lemma SettledCache(s: State, r: Request, now: int, audited: bool)
    requires r.account in s.accounts && r.money.Some?
    ensures var t := Settled(s, r, now, audited);
            t.0.cache == s.cache || t.0.cache == s.cache[CacheKey(r) := t.1]
  {
    hide CacheKey, Wrap, Entries;
  }

  lemma PrecheckMoney(s: State, r: Request, now: int)
    requires Precheck(s, r, now).None?
    ensures r.money.Some? && r.money.value.amount > 0 && (r.kind == ToDevice ==> r.device != "")
  {
  }

  lemma {:induction false} CacheStable(s: State, calls: seq<Call>, key: (Kind, string))
    requires key in s.cache
    ensures key in Run(s, calls).cache && Run(s, calls).cache[key] == s.cache[key]
  {
    hide Served;
    if calls != [] {
      var c := calls[|calls| - 1];
      CacheStable(s, calls[..|calls| - 1], key);
      StepCacheStable(Run(s, calls[..|calls| - 1]), c.r, c.now, c.audited, key);
    }
  }

  /** Once a key has been answered, every later request with that key, whatever else it says, changes nothing and
      gets the first answer, unless it is refused before the key is looked at. */
  lemma ReplayInert(s: State, calls: seq<Call>, key: (Kind, string), r: Request, now: int, audited: bool)
    requires key in s.cache && CacheKey(r) == key
    ensures var t := Run(s, calls);
            && Served(t, r, now, audited).0 == t
            && Served(t, r, now, audited).1
               == if Precheck(t, r, now).Some? then Precheck(t, r, now).value else s.cache[key]
  {
    CacheStable(s, calls, key);
  }

  /** A movement or an insufficient-funds denial answers its key. */
  lemma AnsweredOnce(s: State, r: Request, now: int, audited: bool)
    requires var c := Served(s, r, now, audited).1.code; Precheck(s, r, now).None? && (c == OK || c == DENIED)
    ensures var t := Served(s, r, now, audited);
            CacheKey(r) in t.0.cache && t.0.cache[CacheKey(r)] == t.1
    ensures Served(s, r, now, audited).0.postings == s.postings || CacheKey(r) !in s.cache
  {
    hide Wrap, Authorize, OpName;
  }

  /** One account's keys of this kind can start the way another's do. */
  predicate Overlap(k: Kind, a: string, b: string) {
    KeyHead(k, a) <= KeyHead(k, b) || KeyHead(k, b) <= KeyHead(k, a)
  }

  /** Apart from overlapping accounts, a key determines the kind, the account and the idempotency key. */
  lemma CacheKeyInjective(a: Request, b: Request)
    requires CacheKey(a) == CacheKey(b) && (a.account == b.account || !Overlap(a.kind, a.account, b.account))
    ensures a.kind == b.kind && a.account == b.account && a.idem == b.idem
  {
    hide KeyHead;
    var p, q, k := KeyHead(a.kind, a.account), KeyHead(b.kind, b.account), CacheKey(a).1;
    CommonPrefix(p, q, k);
    assert k[|p|..] == a.idem && k[|q|..] == b.idem;
  }

  lemma CommonPrefix(p: string, q: string, k: string)
    requires p <= k && q <= k
    ensures p <= q || q <= p
  {
    assert if |p| <= |q| then p == q[..|p|] else q == p[..|q|];
  }

  /** Some non-empty idempotency keys give the two accounts one cache key. */
  ghost predicate ShareKey(k: Kind, a: string, b: string) {
    exists i, j :: i != "" && j != "" && SameKey(k, a, i, b, j)
  }

  predicate SameKey(k: Kind, a: string, i: string, b: string, j: string) {
    KeyHead(k, a) + i == KeyHead(k, b) + j
  }

  /** Two accounts can share a cache key exactly when they overlap; without a bar in either name, only an account
      and itself do. */
  lemma ShareKeyIff(k: Kind, a: string, b: string)
    ensures ShareKey(k, a, b) <==> Overlap(k, a, b)
    ensures '|' !in a && '|' !in b ==> (Overlap(k, a, b) <==> a == b)
  {
    hide KeyHead;
    if Overlap(k, a, b) {
      var i, j := Sharing(k, a, b);
    } else if ShareKey(k, a, b) {
      var i, j :| i != "" && j != "" && SameKey(k, a, i, b, j);
      CommonPrefix(KeyHead(k, a), KeyHead(k, b), KeyHead(k, a) + i);
    }
    if '|' !in a && '|' !in b && Overlap(k, a, b) {
      if KeyHead(k, a) <= KeyHead(k, b) {
        NoBars(k, a, b);
      } else {
        NoBars(k, b, a);
      }
    }
  }

  lemma HeadTexts(account: string)
    ensures KeyHead(Deposit, account) == account + "|deposit|"
    ensures KeyHead(Withdraw, account) == account + "|withdraw|"
    ensures KeyHead(ToDevice, account) == account + "|to_device|"
    ensures KeyHead(ToAccount, account) == account + "|to_account|"
  {
    assert "|" + "deposit" + "|" == "|deposit|" && "|" + "withdraw" + "|" == "|withdraw|";
    assert "|" + "to_device" + "|" == "|to_device|" && "|" + "to_account" + "|" == "|to_account|";
    forall k ensures KeyHead(k, account) == account + ("|" + OpName(k) + "|") {
    }
  }

  lemma Extends(k: Kind, account: string, more: string)
    ensures Overlap(k, account, KeyHead(k, account) + more)
  {
    hide OpName;
    var p := KeyHead(k, account);
    assert KeyHead(k, p + more) == p + (more + "|" + OpName(k) + "|");
  }

  /** Such a pair for every account and kind: the account, and it followed by the kind's name between bars. */
  lemma OverlapText(account: string, more: string)
    ensures Overlap(Deposit, account, account + "|deposit|" + more)
    ensures Overlap(Withdraw, account, account + "|withdraw|" + more)
    ensures Overlap(ToDevice, account, account + "|to_device|" + more)
    ensures Overlap(ToAccount, account, account + "|to_account|" + more)
  {
    hide KeyHead, Overlap;
    HeadTexts(account);
    Extends(Deposit, account, more);
    Extends(Withdraw, account, more);
    Extends(ToDevice, account, more);
    Extends(ToAccount, account, more);
  }

  lemma Sharing(k: Kind, a: string, b: string) returns (i: string, j: string)
    requires Overlap(k, a, b)
    ensures i != "" && j != "" && SameKey(k, a, i, b, j)
  {
    hide KeyHead;
    var p, q := KeyHead(k, a), KeyHead(k, b);
    if p <= q {
      i, j := q[|p|..] + "x", "x";
    } else {
      i, j := "x", p[|q|..] + "x";
    }
  }

  lemma NoBars(k: Kind, a: string, b: string)
    requires '|' !in a && '|' !in b && KeyHead(k, a) <= KeyHead(k, b)
    ensures a == b
  {
    hide OpName;
    var p, q := KeyHead(k, a), KeyHead(k, b);
    assert p[|a|] == '|' && q[|b|] == '|' && q[..|b|] == b;
    assert p[..|a|] == a && q[..|a|] == a;
  }

  /** Once a request has been answered, any other request with its key, on whatever account and after whatever
      other calls, moves nothing and is given that answer unless it is refused before the key is looked at. */
  lemma SharedKeySwallows(s: State, a: Request, now: int, audited: bool, calls: seq<Call>, b: Call)
    requires var c := Served(s, a, now, audited).1.code; Precheck(s, a, now).None? && (c == OK || c == DENIED)
    requires CacheKey(b.r) == CacheKey(a)
    ensures var t := Run(Served(s, a, now, audited).0, calls);
            && Served(t, b.r, b.now, b.audited).0 == t
            && (Precheck(t, b.r, b.now).None? ==> Served(t, b.r, b.now, b.audited).1 == Served(s, a, now, audited).1)
  {
    hide Served, Precheck, CacheKey;
    AnsweredOnce(s, a, now, audited);
    ReplayInert(Served(s, a, now, audited).0, calls, CacheKey(a), b.r, b.now, b.audited);
  }

  /** For every two overlapping accounts, a deposit can be answered with the other account's success while its own
      account is not even opened. */
  lemma OverlapSwallows(a: string, b: string, amount: Int64) returns (x: Request, y: Request)
    requires a != "" && b != "" && a != b && amount > 0 && Overlap(Deposit, a, b)
    ensures x.account == a && y.account == b && y.money == x.money == Some(Money(amount, "USD"))
    ensures var (s, answer) := Served(Fresh(5, 900), x, 0, true);
            && answer.code == OK && Precheck(s, y, 0).None?
            && Served(s, y, 0, true) == (s, answer) && b !in s.accounts
  {
    hide Served, CacheKey, Moved, Overlap, Wrap;
    var i, j := Sharing(Deposit, a, b);
    x, y := ByOperator(Deposit, a, "", amount, i), ByOperator(Deposit, b, "", amount, j);
    assert CacheKey(x) == CacheKey(y) by { SameKeySame(x, y); }
    var s0 := Fresh(5, 900);
    OperatorMoves(s0, x);
    var ready := Opened(s0, a, "USD");
    MovedFacts(ready, x, amount);
    MovedAnswer(ready, x, amount);
    MovedOthers(ready, x, amount, b);
    SharedKeySwallows(s0, x, 0, true, [], Call(y, 0, true));
  }

  lemma SameKeySame(x: Request, y: Request)
    requires x.kind == y.kind && SameKey(x.kind, x.account, x.idem, y.account, y.idem)
    ensures CacheKey(x) == CacheKey(y)
  {
  }

  lemma ServedAccounts(s: State, r: Request, now: int, audited: bool)
    ensures var t := Served(s, r, now, audited).0;
            t.accounts == s.accounts
            || (Precheck(s, r, now).None? && r.account in t.accounts
                && t.accounts == s.accounts[r.account := t.accounts[r.account]])
  {
    hide Precheck, CacheKey, Settled;
    if Precheck(s, r, now).None? && CacheKey(r) !in s.cache {
      PrecheckMoney(s, r, now);
      SettledAccounts(Opened(s, r.account, r.money.value.currency), r, now, audited);
    }
  }

  lemma SettledAccounts(s: State, r: Request, now: int, audited: bool)
    requires r.account in s.accounts && r.money.Some?
    ensures var t := Settled(s, r, now, audited).0;
            r.account in t.accounts && t.accounts == s.accounts[r.account := t.accounts[r.account]]
  {
    hide CacheKey, Moved;
    MovedAccounts(s, r, Movable(r.kind, s.accounts[r.account].available, r.money.value.amount));
  }

  lemma MovedAccounts(s: State, r: Request, amount: Int64)
    requires r.account in s.accounts
    ensures var t := Moved(s, r, amount).0;
            r.account in t.accounts && t.accounts == s.accounts[r.account := t.accounts[r.account]]
  {
    hide Wrap, CacheKey, Entries;
  }

  /** Only the named account changes, and only for an operator, a service, or the player whose account it is. */
  lemma OnlyOwnAccount(s: State, r: Request, now: int, audited: bool, account: string)
    requires var t := Served(s, r, now, audited).0;
             account in t.accounts && (account in s.accounts ==> t.accounts[account] != s.accounts[account])
    ensures account == r.account && ResolveActor(r.ctx, r.meta).Ok?
    ensures var actor := ResolveActor(r.ctx, r.meta).value;
            actor.kind == Operator || actor.kind == Service || (actor.kind == Player && actor.id == account)
  {
    hide Served, ResolveActor;
    ServedAccounts(s, r, now, audited);
  }
}
