/** What payments, changes and pages come to, in the terms of the request that asked for them. */
module CreditMeaning {
  import opened Options
  import opened CreditSpec
  import opened CreditLaws

  // ----- what an amount buys -----

  /** `credits` is what `amount` of a token at `cents` per unit comes to, rounded down, if it can be computed. */
  ghost predicate Buys(amount: int, unit: nat, cents: int, credits: int) {
    && amount * cents * 2_000 <= U128_MAX
    && 0 <= credits <= U64_MAX
    && credits * unit <= amount * cents * 2_000 < (credits + 1) * unit
  }

  /** A SOL has a thousand million lamports, a dollar token a million parts. */
  function PartsOf(token: Token): nat {
    match token
    case Sol => 1_000_000_000
    case Usdc => 1_000_000
    case Usdt => 1_000_000
  }

  lemma DivMeans(x: nat, d: nat, q: int)
    requires d > 0
    ensures x / d == q <==> q * d <= x < (q + 1) * d
  {
    assert x == x / d * d + x % d;
    TimesUp(q + 1, x / d, d);
    TimesUp(x / d + 1, q, d);
  }

  lemma TimesUp(a: int, b: int, d: nat)
    ensures a <= b ==> a * d <= b * d
  {}

  lemma CreditsMean(amount: nat, token: Token, cents: nat, credits: int)
    ensures credits >= 0 && CreditsForPayment(amount, token, cents) == Some(credits) <==> Buys(amount, PartsOf(token), cents, credits)
  {
    var x := amount * cents * CREDITS_PER_CENT;
    assert x == amount * cents * 2_000;
    DivMeans(x, Unit(token), credits);
    assert Unit(token) == PartsOf(token);
  }

  /** A tip is worth what its lamports buy, if that is something and fits a balance. */
  lemma WorthMeans(p: Payment, cents: nat, credits: int)
    ensures credits >= 0 && Worth(p, cents) == Some(credits) <==> Buys(p.tip, 1_000_000_000, cents, credits) && 0 < credits <= I64_MAX
  {
    CreditsMean(p.tip, Sol, cents, credits);
    hide CreditsForPayment;
  }

  // ----- crediting -----

  /** The row credits the payment's key with what its lamports buy at this price. */
  ghost predicate TipFor(s: Store, row: Row, p: Payment, cents: nat) {
    && !p.accounted && p.key in s.clients
    && row.signature == Some(p.signature) && row.key == p.key && row.reason == Tip
    && Buys(p.tip, 1_000_000_000, cents, row.delta) && 0 < row.delta <= I64_MAX
  }

  /** Every payment of a client is accounted for, and only those are changed. */
  ghost predicate Accounts(s: Store, payments: seq<Payment>) {
    && |payments| == |s.payments|
    && forall i | 0 <= i < |s.payments| ::
         payments[i] == s.payments[i].(accounted := s.payments[i].accounted || s.payments[i].key in s.clients)
  }

  /** Old rows keep all but, perhaps, their number; every new one is a tip that a payment buys. */
  ghost predicate NewRowsAreTips(s: Store, history: seq<Row>, cents: nat) {
    && |history| >= |s.history|
    && (forall j | 0 <= j < |s.history| :: history[j] == s.history[j].(id := history[j].id))
    && forall j | |s.history| <= j < |history| :: IsTip(s, history[j], cents)
  }

  ghost predicate IsTip(s: Store, row: Row, cents: nat) {
    exists i :: 0 <= i < |s.payments| && TipFor(s, row, s.payments[i], cents)
  }

  ghost predicate Rewarded(s: Store, p: Payment, cents: nat) {
    !p.accounted && p.key in s.clients && exists credits :: Buys(p.tip, 1_000_000_000, cents, credits) && 0 < credits <= I64_MAX
  }

  /** Each payment that buys anything has a new row. */
  ghost predicate RewardsRecorded(s: Store, history: seq<Row>, cents: nat) {
    forall i | 0 <= i < |s.payments| && Rewarded(s, s.payments[i], cents) ::
      exists j :: |s.history| <= j < |history| && history[j].signature == Some(s.payments[i].signature)
  }

  lemma RowsMean(s: Store, history: seq<Row>, c: Crediting, cents: nat)
    requires CreditedSoFar(s, c, |s.payments|, cents)
    requires |history| == |s.history| + |c.rows|
    requires forall i | 0 <= i < |history| :: history[i] == (s.history + c.rows)[i].(id := history[i].id)
    ensures NewRowsAreTips(s, history, cents)
  {
    hide Buys, Worth;
    forall j | |s.history| <= j < |history| ensures IsTip(s, history[j], cents) {
      assert (s.history + c.rows)[j] == c.rows[j - |s.history|];
      var row := c.rows[j - |s.history|];
      var i :| 0 <= i < |s.payments| && RowFor(s, row, s.payments[i], cents);
      WorthMeans(s.payments[i], cents, row.delta);
      assert TipFor(s, history[j], s.payments[i], cents);
    }
    forall j | 0 <= j < |s.history| ensures history[j] == s.history[j].(id := history[j].id) {
      assert (s.history + c.rows)[j] == s.history[j];
    }
  }

  lemma RewardsMean(s: Store, history: seq<Row>, c: Crediting, cents: nat)
    requires CreditedSoFar(s, c, |s.payments|, cents)
    requires |history| == |s.history| + |c.rows|
    requires forall i | 0 <= i < |history| :: history[i] == (s.history + c.rows)[i].(id := history[i].id)
    ensures RewardsRecorded(s, history, cents)
  {
    hide Buys, Worth, RowFor;
    forall i | 0 <= i < |s.payments| && Rewarded(s, s.payments[i], cents)
      ensures exists j :: |s.history| <= j < |history| && history[j].signature == Some(s.payments[i].signature)
    {
      var credits :| Buys(s.payments[i].tip, 1_000_000_000, cents, credits) && 0 < credits <= I64_MAX;
      WorthMeans(s.payments[i], cents, credits);
      assert TipRow(c.rows, s.payments[i].signature);
      var m :| 0 <= m < |c.rows| && c.rows[m].signature == Some(s.payments[i].signature);
      assert history[|s.history| + m].signature == c.rows[m].signature;
    }
  }

  /**
   A tick: a stale price changes nothing; otherwise each payment of a client not accounted for
   becomes so, and the new rows of the history are tips of exactly what such a payment buys, one for
   each that buys anything.
   */
  lemma TickMeans(s: Store, cents: nat, updatedAt: int, now: int)
    ensures var after := CreditPayments(s, cents, updatedAt, now);
      if now - updatedAt > 1_800 then after == s else
      && after.clients.Keys == s.clients.Keys
      && Accounts(s, after.payments)
      && NewRowsAreTips(s, after.history, cents)
      && RewardsRecorded(s, after.history, cents)
  {
    hide CreditUpTo, RecordedAll, NewRowsAreTips, RewardsRecorded;
    if Fresh(updatedAt, now) {
      var c, history := CreditUpTo(s, |s.payments|, cents), CreditPayments(s, cents, updatedAt, now).history;
      TickCreditsExactly(s, |s.payments|, cents);
      RecordedAllRows(s.history, c.rows);
      RowsMean(s, history, c, cents);
      RewardsMean(s, history, c, cents);
      CreditedAccounts(s, c, cents);
    }
    hide CreditedSoFar, Accounts;
  }

  lemma CreditedAccounts(s: Store, c: Crediting, cents: nat)
    requires CreditedSoFar(s, c, |s.payments|, cents)
    ensures c.clients.Keys == s.clients.Keys && Accounts(s, c.payments)
  {
    hide RowFor, TipRow, Worth;
  }

  // ----- registering -----

  /** The tip at `i` is the first of its signature in the request. */
  ghost predicate FirstTip(requested: seq<Submitted>, i: nat) {
    && i < |requested| && requested[i].Tipped? && requested[i].lamports > 0
    && forall j | 0 <= j < i && requested[j].Tipped? && requested[j].lamports > 0 :: requested[j].signature != requested[i].signature
  }

  /** `at` lists where in the request the entries come from, in order. */
  ghost predicate TakenFrom(requested: seq<Submitted>, entries: seq<Entry>, at: seq<nat>) {
    && |at| == |entries|
    && (forall a, b | 0 <= a < b < |at| :: at[a] < at[b])
    && forall a | 0 <= a < |at| ::
         FirstTip(requested, at[a]) && entries[a] == Entry(requested[at[a]].signature, requested[at[a]].lamports)
  }

  lemma FirstTipMore(requested: seq<Submitted>, x: Submitted, i: nat)
    requires i < |requested|
    ensures FirstTip(requested + [x], i) <==> FirstTip(requested, i)
  {
    assert forall j | 0 <= j <= i :: (requested + [x])[j] == requested[j];
  }

  lemma EntriesMore(front: seq<Submitted>, x: Submitted)
    ensures Entries(front + [x]) ==
      if x.Tipped? && x.lamports > 0 && !Names(Entries(front), x.signature)
      then Entries(front) + [Entry(x.signature, x.lamports)] else Entries(front)
  {
    assert (front + [x])[..|front|] == front;
  }

  /** All tips of the request are named. */
  ghost predicate AllNamed(requested: seq<Submitted>, entries: seq<Entry>) {
    forall i | 0 <= i < |requested| && requested[i].Tipped? && requested[i].lamports > 0 :: Names(entries, requested[i].signature)
  }

  ghost predicate AllTaken(requested: seq<Submitted>, at: seq<nat>) {
    forall i: nat | FirstTip(requested, i) :: i in at
  }

  lemma NamedMore(front: seq<Submitted>, before: seq<Entry>, x: Submitted)
    requires AllNamed(front, before)
    ensures x.Tipped? && x.lamports > 0 ==> AllNamed(front + [x], before + [Entry(x.signature, x.lamports)])
    ensures (x.Tipped? && x.lamports > 0 && !Names(before, x.signature)) || AllNamed(front + [x], before)
  {
    if x.Tipped? {
      forall signature ensures Names(before + [Entry(x.signature, x.lamports)], signature) <==> Names(before, signature) || x.signature == signature {
        NamesMore(before, Entry(x.signature, x.lamports), signature);
      }
    }
    assert forall i | 0 <= i < |front| :: (front + [x])[i] == front[i];
    hide Names;
  }

  lemma TakenMore(front: seq<Submitted>, x: Submitted, before: seq<Entry>, at: seq<nat>)
    requires TakenFrom(front, before, at) && AllTaken(front, at)
    ensures var all := front + [x];
      if FirstTip(all, |front|) then
        TakenFrom(all, before + [Entry(x.signature, x.lamports)], at + [|front|]) && AllTaken(all, at + [|front|])
      else TakenFrom(all, before, at) && AllTaken(all, at)
  {
    var all := front + [x];
    forall i: nat | i < |front| ensures FirstTip(all, i) <==> FirstTip(front, i) {
      FirstTipMore(front, x, i);
    }
    assert all[|front|] == x;
    assert forall i | 0 <= i < |front| :: all[i] == front[i];
    FirstTipBound(front);
    FirstTipBound(all);
    hide FirstTip;
    assert forall a | 0 <= a < |at| :: FirstTip(front, at[a]);
  }

  lemma FirstTipBound(requested: seq<Submitted>)
    ensures forall i: nat | FirstTip(requested, i) :: i < |requested| && requested[i].Tipped?
  {}

  lemma {:induction false} EntriesFrom(requested: seq<Submitted>) returns (at: seq<nat>)
    ensures TakenFrom(requested, Entries(requested), at)
    ensures AllTaken(requested, at)
    ensures AllNamed(requested, Entries(requested))
  {
    hide FirstTip, Names, TakenFrom, AllTaken, AllNamed, Entries;
    if requested == [] {
      at := [];
      NoEntries();
    } else {
      var front, x := requested[..|requested| - 1], requested[|requested| - 1];
      assert requested == front + [x];
      at := EntriesFrom(front);
      EntriesMore(front, x);
      NamesFirst(front, Entries(front), at, x);
      NamedMore(front, Entries(front), x);
      TakenMore(front, x, Entries(front), at);
      if x.Tipped? && x.lamports > 0 && !Names(Entries(front), x.signature) {
        at := at + [|front|];
      }
    }
  }

  lemma NoEntries()
    ensures Entries([]) == [] && TakenFrom([], [], []) && AllTaken([], []) && AllNamed([], [])
  {}

  /** The last of a request is a first tip exactly when its signature is not among the entries before. */
  lemma NamesFirst(front: seq<Submitted>, before: seq<Entry>, at: seq<nat>, x: Submitted)
    requires TakenFrom(front, before, at)
    requires AllNamed(front, before)
    ensures FirstTip(front + [x], |front|) <==> x.Tipped? && x.lamports > 0 && !Names(before, x.signature)
  {
    var all := front + [x];
    assert forall j | 0 <= j < |front| :: all[j] == front[j];
    if x.Tipped? && Names(before, x.signature) {
      var a :| 0 <= a < |before| && before[a].signature == x.signature;
      assert all[at[a]] == front[at[a]];
    }
  }

  /** The `a`-th of `accepted` is the payment of the request at `at[a]`. */
  ghost predicate Registers(s: Store, key: ApiKey, requested: seq<Submitted>, more: seq<Payment>, at: seq<nat>) {
    && |at| == |more|
    && (forall a, b | 0 <= a < b < |at| :: at[a] < at[b])
    && (forall a | 0 <= a < |at| ::
          && FirstTip(requested, at[a]) && requested[at[a]].signature !in s.paid
          && more[a] == Payment(requested[at[a]].signature, key, requested[at[a]].lamports, false))
    && forall i: nat | FirstTip(requested, i) && requested[i].signature !in s.paid :: i in at
  }

  /** What is kept are those that were never paid with. */
  ghost predicate Unpaid(paid: set<Signature>, requested: seq<Submitted>, at: seq<nat>, kept: seq<nat>) {
    && (forall i | i in kept :: i in at)
    && (forall i | i in at :: i < |requested| && requested[i].Tipped? && (i in kept <==> requested[i].signature !in paid))
  }

  lemma AcceptedMore(paid: set<Signature>, front: seq<Entry>, last: Entry)
    ensures Accepted(paid, front + [last]) ==
      if last.signature in paid || Names(Accepted(paid, front), last.signature) then Accepted(paid, front) else Accepted(paid, front) + [last]
  {
    assert (front + [last])[..|front|] == front;
  }

  lemma TakenFront(requested: seq<Submitted>, front: seq<Entry>, last: Entry, at: seq<nat>, n: nat)
    requires TakenFrom(requested, front + [last], at + [n])
    ensures TakenFrom(requested, front, at)
    ensures FirstTip(requested, n) && n < |requested| && requested[n].Tipped? && last == Entry(requested[n].signature, requested[n].lamports)
    ensures forall i | i in at :: i < n
  {
    var all, entries := at + [n], front + [last];
    assert forall a | 0 <= a < |at| :: all[a] == at[a] && entries[a] == front[a];
    assert all[|at|] == n && entries[|at|] == last;
  }

  lemma TakenOne(requested: seq<Submitted>, front: seq<Entry>, last: Entry, at: seq<nat>, n: nat)
    requires TakenFrom(requested, front, at) && FirstTip(requested, n) && forall i | i in at :: i < n
    requires last == Entry(requested[n].signature, requested[n].lamports)
    ensures TakenFrom(requested, front + [last], at + [n])
  {
    hide FirstTip;
    assert forall a | 0 <= a < |at| :: at[a] in at;
  }

  lemma {:induction false} AcceptedFrom(paid: set<Signature>, requested: seq<Submitted>, entries: seq<Entry>, at: seq<nat>)
      returns (kept: seq<nat>)
    requires TakenFrom(requested, entries, at)
    ensures TakenFrom(requested, Accepted(paid, entries), kept)
    ensures Unpaid(paid, requested, at, kept)
    decreases |entries|
  {
    if entries == [] {
      kept := [];
    } else {
      var front, last, ahead, n := entries[..|entries| - 1], entries[|entries| - 1], at[..|at| - 1], at[|at| - 1];
      assert at == ahead + [n] && entries == front + [last];
      hide TakenFrom, FirstTip, Names, Accepted;
      TakenFront(requested, front, last, ahead, n);
      kept := AcceptedFrom(paid, requested, front, ahead);
      AcceptedMore(paid, front, last);
      NewName(requested, Accepted(paid, front), kept, n);
      if last.signature !in paid {
        TakenOne(requested, Accepted(paid, front), last, kept, n);
        kept := kept + [n];
      }
    }
  }

  /** A later first tip has a signature of its own. */
  lemma NewName(requested: seq<Submitted>, entries: seq<Entry>, at: seq<nat>, n: nat)
    requires TakenFrom(requested, entries, at) && FirstTip(requested, n) && forall i | i in at :: i < n
    ensures !Names(entries, requested[n].signature)
  {
    forall a | 0 <= a < |entries| ensures entries[a].signature != requested[n].signature {
      assert at[a] in at && FirstTip(requested, at[a]);
    }
  }

  /**
   A request of a known key, neither empty nor too long, registers in order the first tip of each
   signature that was never paid with, as not yet accounted; any other request changes nothing.
   */
  lemma RegisterMeans(s: Store, key: ApiKey, requested: seq<Submitted>)
    ensures var (after, result) := Register(s, key, requested);
      && (result.Ok? <==> 0 < |requested| <= 1000 && key in s.apiKeys)
      && (result.Err? ==> after == s)
      && (result.Ok? ==>
            && after == s.(paid := after.paid, payments := after.payments)
            && |after.payments| >= |s.payments| && after.payments[..|s.payments|] == s.payments
            && (exists at :: Registers(s, key, requested, after.payments[|s.payments|..], at))
            && (forall signature :: signature in after.paid <==>
                  signature in s.paid || exists i: nat :: FirstTip(requested, i) && requested[i].signature == signature))
  {
    var (after, result) := Register(s, key, requested);
    if result.Ok? {
      var from := EntriesFrom(requested);
      var at := AcceptedFrom(s.paid, requested, Entries(requested), from);
      hide Entries, Accepted;
      var accepted := result.value;
      var more := after.payments[|s.payments|..];
      assert more == PaymentsOf(accepted, key);
      FirstTipBound(requested);
      forall a | 0 <= a < |at|
        ensures FirstTip(requested, at[a]) && requested[at[a]].signature !in s.paid
        ensures more[a] == Payment(requested[at[a]].signature, key, requested[at[a]].lamports, false)
      {
        assert at[a] in at;
      }
      forall i: nat | FirstTip(requested, i) && requested[i].signature !in s.paid ensures i in at {
        assert i in from;
      }
      assert Registers(s, key, requested, more, at);
      forall signature ensures signature in after.paid <==>
        signature in s.paid || exists i: nat :: FirstTip(requested, i) && requested[i].signature == signature
      {
        PaidMore(s, requested, accepted, at, signature);
      }
    }
  }

  lemma PaidMore(s: Store, requested: seq<Submitted>, accepted: seq<Entry>, at: seq<nat>, signature: Signature)
    requires TakenFrom(requested, accepted, at)
    requires forall i: nat | FirstTip(requested, i) && requested[i].signature !in s.paid :: i in at
    ensures signature in s.paid + SignaturesOf(accepted) <==>
      signature in s.paid || exists i: nat :: FirstTip(requested, i) && requested[i].signature == signature
  {
    if signature in SignaturesOf(accepted) {
      var a :| 0 <= a < |accepted| && accepted[a].signature == signature;
      assert FirstTip(requested, at[a]);
    }
    if i: nat :| FirstTip(requested, i) && requested[i].signature == signature && signature !in s.paid {
      var a :| 0 <= a < |at| && at[a] == i;
      assert accepted[a].signature == signature;
    }
  }

  // ----- an admin's change -----

  /** The change asks for `d`: as such, or as what a payment buys. */
  ghost predicate Grants(c: Change, d: int) {
    && !c.blankComment
    && d != 0 && -1_000_000_000_000 <= d <= 1_000_000_000_000
    && match c.reason
       case AdminChange => c.payment == None && c.delta == Some(d)
       case ManualPayment =>
         && c.payment.Some? && c.payment.value.amount > 0 && c.payment.value.cents > 0
         && Buys(c.payment.value.amount, PartsOf(c.payment.value.token), c.payment.value.cents, d)
         && (c.delta == None || c.delta == Some(d))
       case Tip => false
       case Usage => false
       case WriteOff => false
  }

  lemma PaidMeans(p: Paid, d: int)
    ensures d >= 0 && PaidCredits(p) == Some(d) <==>
      p.amount > 0 && p.cents > 0 && d <= I64_MAX && Buys(p.amount, PartsOf(p.token), p.cents, d)
  {
    if p.amount > 0 && p.cents > 0 {
      CreditsMean(p.amount, p.token, p.cents, d);
    }
    hide CreditsForPayment;
  }

  lemma DeltaMeans(c: Change, d: int)
    ensures Delta(c) == Ok(d) <==> Grants(c, d)
  {
    if c.payment.Some? {
      PaidMeans(c.payment.value, d);
    }
    hide PaidCredits, Buys;
  }

  /**
   An admin's change succeeds exactly when it grants something to a client whose balance stays in
   range; then that is added to the balance and recorded, and otherwise nothing changes.
   */
  lemma ChangeMeans(s: Store, key: ApiKey, c: Change)
    ensures var (after, result) := ChangeCredits(s, key, c);
      && (result.Ok? <==> key in s.clients && exists d :: Grants(c, d) && 0 <= s.clients[key].balance + d <= I64_MAX)
      && (result.Err? ==> after == s)
      && (forall d | result.Ok? && Grants(c, d) ::
            && result.value == s.clients[key].balance + d
            && after.clients == s.clients[key := s.clients[key].(balance := s.clients[key].balance + d)]
            && |after.history| == |s.history| + 1 && after.history[..|s.history|] == s.history
            && after.history[|s.history|] == Row(after.history[|s.history|].id, key, d, c.reason, None)
            && after == s.(clients := after.clients, history := after.history))
  {
    forall d ensures Delta(c) == Ok(d) <==> Grants(c, d) {
      DeltaMeans(c, d);
    }
    hide Delta, Grants, NextId;
  }

  // ----- pages -----

  /** A row of the client that is not usage and, if the page says so, older than a given one. */
  ghost predicate Shown(row: Row, key: ApiKey, before: Option<nat>) {
    row.key == key && !row.reason.Usage? && (match before case None => true case Some(id) => row.id < id)
  }

  /** What a list in descending order has beyond its first `n` is older than those. */
  lemma PrefixIsNewest(all: seq<Row>, n: nat)
    requires Descending(all) && n <= |all|
    ensures Descending(all[..n])
    ensures forall row | row in all[..n] :: row in all
    ensures forall row, x | row in all && row !in all[..n] && x in all[..n] :: row.id < x.id
    ensures n == |all| ==> all[..n] == all
  {
    forall row, x | row in all && row !in all[..n] && x in all[..n] ensures row.id < x.id {
      var i :| 0 <= i < |all| && all[i] == row;
      var j :| 0 <= j < n && all[..n][j] == x;
      assert forall m | 0 <= m < n :: all[..n][m] == all[m] && all[..n][m] in all[..n];
    }
  }

  function PageSize(limit: nat): nat { if limit < 1 then 1 else if limit > 500 then 500 else limit }

  lemma PageIsPrefix(history: seq<Row>, key: ApiKey, before: Option<nat>, limit: nat)
    ensures var all, page := NewestFirst(history, key, before), Page(history, key, before, limit);
      |page| <= |all| && page == all[..|page|] && |page| <= PageSize(limit) && (|page| == |all| || |page| == PageSize(limit))
  {
    hide NewestFirst;
  }

  lemma ShownMeans(key: ApiKey, before: Option<nat>)
    ensures forall row :: Shown(row, key, before) <==> Listed(row, key, before)
  {}

  /** A page is the newest rows to be shown, at most `limit` of them, which is taken to lie within 1 and 500. */
  lemma PageMeans(history: seq<Row>, key: ApiKey, before: Option<nat>, limit: nat)
    requires IdsIncrease(history)
    ensures var page := Page(history, key, before, limit);
      && Descending(page) && |page| <= PageSize(limit)
      && (forall row | row in page :: row in history && Shown(row, key, before))
      && (forall row | row in history && Shown(row, key, before) && row !in page ::
            |page| == PageSize(limit) && forall x | x in page :: row.id < x.id)
  {
    hide NewestFirst, Shown, Listed, IdsIncrease, Page, PageSize, Descending;
    NewestFirstMembers(history, key, before);
    NewestFirstDescends(history, key, before);
    ShownMeans(key, before);
    PageIsPrefix(history, key, before, limit);
    PrefixIsNewest(NewestFirst(history, key, before), |Page(history, key, before, limit)|);
  }

  // ----- quotes, tiers and refusals -----

  /** A quote is what the lamports buy, and their worth in whole cents; nothing is quoted for nothing or for more than fits. */
  lemma QuoteMeans(lamports: nat, cents: nat)
    ensures var q := QuoteLamports(lamports, cents);
      && (q.Some? ==>
            && Buys(lamports, 1_000_000_000, cents, q.value.credits)
            && q.value.usdCents * 1_000_000_000 <= lamports * cents < (q.value.usdCents + 1) * 1_000_000_000)
      && (q.Some? <==> lamports > 0 && lamports * cents < (U64_MAX + 1) * 1_000_000_000 && exists credits :: Buys(lamports, 1_000_000_000, cents, credits))
  {
    forall credits ensures credits >= 0 && CreditsForPayment(lamports, Sol, cents) == Some(credits) <==> Buys(lamports, 1_000_000_000, cents, credits) {
      CreditsMean(lamports, Sol, cents, credits);
    }
    hide CreditsForPayment, Buys;
    var usdCents := lamports * cents / LAMPORTS_PER_SOL;
    DivMeans(lamports * cents, 1_000_000_000, usdCents);
    TimesUp(usdCents + 1, U64_MAX + 1, 1_000_000_000);
    TimesUp(U64_MAX + 1, usdCents, 1_000_000_000);
  }

  /** Why a change is refused, when what it asks for is in order. */
  lemma RefusedChange(s: Store, key: ApiKey, c: Change, d: int)
    requires Grants(c, d)
    ensures var result := ChangeCredits(s, key, c).1;
      && (result == Err(NotFound) <==> key !in s.clients)
      && (result == Err(BalanceOverflow) <==> key in s.clients && s.clients[key].balance + d > I64_MAX)
      && (result == Err(BalanceBelowZero) <==> key in s.clients && s.clients[key].balance + d < 0)
  {
    DeltaMeans(c, d);
    hide Delta, Grants;
  }

  /** Why a change asks for nothing, the first reason first. */
  lemma RefusedRequest(c: Change)
    requires forall d :: !Grants(c, d)
    ensures Delta(c).Err?
    ensures c.reason == AdminChange ==>
      Delta(c) == Err(if c.payment.Some? then PaymentNotAllowed
                      else if c.delta.None? then MissingDelta
                      else if c.delta == Some(0) then ZeroChange
                      else if !(-1_000_000_000_000 <= c.delta.value <= 1_000_000_000_000) then ChangeTooLarge
                      else BlankComment)
    ensures c.reason == ManualPayment && c.payment == None ==> Delta(c) == Err(MissingPayment)
    ensures c.reason == ManualPayment && c.payment.Some? && (c.payment.value.amount <= 0 || c.payment.value.cents <= 0) ==> Delta(c) == Err(BadPayment)
    ensures c.reason != AdminChange && c.reason != ManualPayment ==> Delta(c) == Err(ReasonNotAllowed)
  {
    if Delta(c).Ok? {
      DeltaMeans(c, Delta(c).value);
    }
    hide Grants, CreditsForPayment;
  }

  /** Why a request registers nothing. */
  lemma RefusedPayments(s: Store, key: ApiKey, requested: seq<Submitted>)
    ensures var result := Register(s, key, requested).1;
      && (result == Err(NoTransactions) <==> |requested| == 0)
      && (result == Err(TooManyTransactions) <==> |requested| > 1000)
      && (result == Err(UnknownApiKey) <==> 0 < |requested| <= 1000 && key !in s.apiKeys)
  {
    hide Accepted, Entries;
  }

  /** Setting a tier moves no balance; only a known key gets one, and a new client starts with nothing. */
  lemma SetTierMeans(s: Store, key: ApiKey, tier: nat)
    ensures var (after, result) := SetTier(s, key, tier);
      && (result.Ok? <==> key in s.apiKeys) && (result.Err? ==> after == s)
      && (result.Ok? ==>
            && after == s.(clients := after.clients) && key in after.clients && after.clients[key].tier == tier
            && result.value == after.clients[key].balance == (if key in s.clients then s.clients[key].balance else 0)
            && after.clients.Keys == s.clients.Keys + {key}
            && forall other | other in s.clients && other != key :: after.clients[other] == s.clients[other])
  {}
}
