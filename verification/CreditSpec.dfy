/** Payments, credits and the history of balance changes, as values. */
module CreditSpec {
  import opened Options

  const CREDITS_PER_CENT: nat := 2_000
  const LAMPORTS_PER_SOL: nat := 1_000_000_000
  const MAX_ADMIN_CREDITS_CHANGE: nat := 1_000_000_000_000
  const MAX_POSTPACK_PAY_TRANSACTIONS: nat := 1000
  const MAX_HISTORY_ROWS: nat := 500
  const MAX_SOL_PRICE_AGE_SECS: nat := 1_800
  const I64_MAX: nat := 0x7FFF_FFFF_FFFF_FFFF
  const U64_MAX: nat := 0xFFFF_FFFF_FFFF_FFFF
  const U128_MAX: nat := 0xFFFF_FFFF_FFFF_FFFF_FFFF_FFFF_FFFF_FFFF

  type ApiKey = nat
  type Signature = nat

  datatype Result<T> = Ok(value: T) | Err(error: Error)

  datatype Error =
    | PaymentNotAllowed | MissingDelta | MissingPayment | BadPayment | DeltaMismatch | ReasonNotAllowed
    | ZeroChange | ChangeTooLarge | BlankComment | NotFound | BalanceOverflow | BalanceBelowZero
    | NoTransactions | TooManyTransactions | UnknownApiKey

  datatype Token = Sol | Usdc | Usdt

  /** Ten to the power of the token's decimals. */
  function Unit(t: Token): nat { if t.Sol? then 1_000_000_000 else 1_000_000 }

  /** None when an intermediate product or the credits do not fit. */
  function CreditsForPayment(amount: nat, token: Token, cents: nat): Option<nat> {
    if amount * cents * CREDITS_PER_CENT > U128_MAX then None else
    var credits := amount * cents * CREDITS_PER_CENT / Unit(token);
    if credits > U64_MAX then None else Some(credits)
  }

  datatype Quote = Quote(usdCents: nat, credits: nat)

  function QuoteLamports(lamports: nat, cents: nat): Option<Quote> {
    var usdCents := lamports * cents / LAMPORTS_PER_SOL;
    var credits := CreditsForPayment(lamports, Sol, cents);
    if lamports == 0 || usdCents > U64_MAX || credits.None? then None
    else Some(Quote(usdCents, credits.value))
  }

  // ----- what an admin may change -----

  datatype Reason = Tip | ManualPayment | Usage | AdminChange | WriteOff

  datatype Paid = Paid(amount: int, token: Token, cents: int)

  datatype Change = Change(delta: Option<int>, reason: Reason, blankComment: bool, payment: Option<Paid>)

  /** The credits a manual payment buys. */
  function PaidCredits(p: Paid): Option<nat> {
    if p.amount <= 0 || p.cents <= 0 then None else
    var credits := CreditsForPayment(p.amount, p.token, p.cents);
    if credits.Some? && credits.value <= I64_MAX then credits else None
  }

  function DeltaOf(c: Change): Result<int> {
    match c.reason
    case AdminChange =>
      if c.payment.Some? then Err(PaymentNotAllowed)
      else if c.delta.None? then Err(MissingDelta)
      else Ok(c.delta.value)
    case ManualPayment =>
      if c.payment.None? then Err(MissingPayment)
      else if PaidCredits(c.payment.value).None? then Err(BadPayment)
      else if c.delta.Some? && c.delta.value != PaidCredits(c.payment.value).value then Err(DeltaMismatch)
      else Ok(PaidCredits(c.payment.value).value)
    case _ => Err(ReasonNotAllowed)
  }

  function Abs(x: int): nat { if x < 0 then -x else x }

  function Delta(c: Change): Result<int> {
    var delta := DeltaOf(c);
    if delta.Err? then delta
    else if delta.value == 0 then Err(ZeroChange)
    else if Abs(delta.value) > MAX_ADMIN_CREDITS_CHANGE then Err(ChangeTooLarge)
    else if c.blankComment then Err(BlankComment)
    else delta
  }

  // ----- the store -----

  datatype Row = Row(id: nat, key: ApiKey, delta: int, reason: Reason, signature: Option<Signature>)

  datatype Payment = Payment(signature: Signature, key: ApiKey, tip: nat, accounted: bool)

  datatype Client = Client(tier: nat, balance: int)

  datatype Store = Store(
    apiKeys: set<ApiKey>,
    clients: map<ApiKey, Client>,
    history: seq<Row>,
    paid: set<Signature>,
    payments: seq<Payment>)

  function NextId(history: seq<Row>): nat {
    if history == [] then 1 else history[|history| - 1].id + 1
  }

  function Recorded(history: seq<Row>, row: Row): seq<Row> { history + [row.(id := NextId(history))] }

  function RecordedAll(history: seq<Row>, rows: seq<Row>): seq<Row> {
    if rows == [] then history else Recorded(RecordedAll(history, rows[..|rows| - 1]), rows[|rows| - 1])
  }

  /** An admin's change of a balance. */
  function ChangeCredits(s: Store, key: ApiKey, c: Change): (Store, Result<int>) {
    var delta := Delta(c);
    if delta.Err? then (s, delta)
    else if key !in s.clients then (s, Err(NotFound))
    else
      var balance := s.clients[key].balance + delta.value;
      if balance > I64_MAX then (s, Err(BalanceOverflow))
      else if balance < 0 then (s, Err(BalanceBelowZero))
      else (s.(clients := s.clients[key := s.clients[key].(balance := balance)],
               history := Recorded(s.history, Row(0, key, delta.value, c.reason, None))),
            Ok(balance))
  }

  /** Sets a client's tier; a new client starts with nothing. */
  function SetTier(s: Store, key: ApiKey, tier: nat): (Store, Result<int>) {
    if key !in s.apiKeys then (s, Err(NotFound)) else
    var client := if key in s.clients then s.clients[key].(tier := tier) else Client(tier, 0);
    (s.(clients := s.clients[key := client]), Ok(client.balance))
  }

  // ----- payments -----

  /** What is left of a submitted transaction once it was decoded and checked. */
  datatype Submitted = Rejected | Tipped(signature: Signature, lamports: nat)

  datatype Entry = Entry(signature: Signature, tip: nat)

  predicate Names(entries: seq<Entry>, signature: Signature) {
    exists i :: 0 <= i < |entries| && entries[i].signature == signature
  }

  /** The tips of a request, the first of each signature. */
  function Entries(requested: seq<Submitted>): seq<Entry> {
    if requested == [] then [] else
    var before, last := Entries(requested[..|requested| - 1]), requested[|requested| - 1];
    if last.Tipped? && last.lamports > 0 && !Names(before, last.signature) then before + [Entry(last.signature, last.lamports)]
    else before
  }

  function Accepted(paid: set<Signature>, entries: seq<Entry>): seq<Entry> {
    if entries == [] then [] else
    var before, last := Accepted(paid, entries[..|entries| - 1]), entries[|entries| - 1];
    if last.signature in paid || Names(before, last.signature) then before else before + [last]
  }

  function PaymentsOf(entries: seq<Entry>, key: ApiKey): seq<Payment> {
    seq(|entries|, i requires 0 <= i < |entries| => Payment(entries[i].signature, key, entries[i].tip, false))
  }

  function SignaturesOf(entries: seq<Entry>): set<Signature> {
    set i | 0 <= i < |entries| :: entries[i].signature
  }

  function Register(s: Store, key: ApiKey, requested: seq<Submitted>): (Store, Result<seq<Entry>>) {
    if requested == [] then (s, Err(NoTransactions))
    else if |requested| > MAX_POSTPACK_PAY_TRANSACTIONS then (s, Err(TooManyTransactions))
    else if key !in s.apiKeys then (s, Err(UnknownApiKey))
    else
      var accepted := Accepted(s.paid, Entries(requested));
      (s.(paid := s.paid + SignaturesOf(accepted), payments := s.payments + PaymentsOf(accepted, key)), Ok(accepted))
  }

  /** What a payment is credited with at this price. */
  function Worth(p: Payment, cents: nat): Option<nat> {
    var credits := CreditsForPayment(p.tip, Sol, cents);
    if credits.Some? && 0 < credits.value <= I64_MAX then credits else None
  }

  predicate Waiting(s: Store, p: Payment) { !p.accounted && p.key in s.clients }

  /** `i64::saturating_add` of something positive */
  function AddCredits(balance: int, credits: nat): int {
    if balance + credits > I64_MAX then I64_MAX else balance + credits
  }

  /** The first `k` payments credited: the clients, the payments, and the rows to record. */
  datatype Crediting = Crediting(clients: map<ApiKey, Client>, payments: seq<Payment>, rows: seq<Row>)

  function CreditOne(c: Crediting, i: nat, cents: nat): Crediting
    requires i < |c.payments|
  {
    var p := c.payments[i];
    if p.accounted || p.key !in c.clients then c else
    var done := c.(payments := c.payments[i := p.(accounted := true)]);
    if Worth(p, cents).None? then done else
    var client := c.clients[p.key];
    done.(clients := c.clients[p.key := client.(balance := AddCredits(client.balance, Worth(p, cents).value))],
          rows := c.rows + [Row(0, p.key, Worth(p, cents).value, Tip, Some(p.signature))])
  }

  function CreditUpTo(s: Store, k: nat, cents: nat): (c: Crediting)
    requires k <= |s.payments|
    ensures |c.payments| == |s.payments|
  {
    if k == 0 then Crediting(s.clients, s.payments, [])
    else CreditOne(CreditUpTo(s, k - 1, cents), k - 1, cents)
  }

  predicate Fresh(updatedAt: int, now: int) { now - updatedAt <= MAX_SOL_PRICE_AGE_SECS }

  /** Credits all waiting payments, unless the price is stale. */
  function CreditPayments(s: Store, cents: nat, updatedAt: int, now: int): Store {
    if !Fresh(updatedAt, now) then s else
    var c := CreditUpTo(s, |s.payments|, cents);
    s.(clients := c.clients, payments := c.payments, history := RecordedAll(s.history, c.rows))
  }

  // ----- reading the history -----

  predicate Listed(row: Row, key: ApiKey, before: Option<nat>) {
    row.key == key && row.reason != Usage && (before.Some? ==> row.id < before.value)
  }

  /** All listed rows, newest first. */
  function NewestFirst(history: seq<Row>, key: ApiKey, before: Option<nat>): seq<Row> {
    if history == [] then [] else
    var last := history[|history| - 1];
    (if Listed(last, key, before) then [last] else []) + NewestFirst(history[..|history| - 1], key, before)
  }

  function Clamp(limit: nat): nat {
    if limit < 1 then 1 else if limit > MAX_HISTORY_ROWS then MAX_HISTORY_ROWS else limit
  }

  /** One page of the history. */
  function Page(history: seq<Row>, key: ApiKey, before: Option<nat>, limit: nat): seq<Row> {
    var all := NewestFirst(history, key, before);
    if |all| <= Clamp(limit) then all else all[..Clamp(limit)]
  }
}
