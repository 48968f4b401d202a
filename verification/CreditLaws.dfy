/** The credit ledger over any run of registrations, crediting ticks and admin changes. */
module CreditLaws {
  import opened Options
  import opened CreditSpec

  // ----- quotes -----

  /** Every quote's credits are 2000 per cent, rounded down no further than a cent. */
  lemma QuoteConsistent(lamports: nat, cents: nat)
    requires QuoteLamports(lamports, cents).Some?
    ensures var q := QuoteLamports(lamports, cents).value;
      CREDITS_PER_CENT * q.usdCents <= q.credits < CREDITS_PER_CENT * (q.usdCents + 1)
  {}

  // ----- the history -----

  ghost predicate IdsIncrease(history: seq<Row>) {
    && (forall i | 0 <= i < |history| :: history[i].id > 0)
    && forall i, j | 0 <= i < j < |history| :: history[i].id < history[j].id
  }

  /** The sum of a key's changes other than usage. */
  function SumOf(history: seq<Row>, key: ApiKey): int {
    if history == [] then 0 else
    var last := history[|history| - 1];
    SumOf(history[..|history| - 1], key) + if last.key == key && last.reason != Usage then last.delta else 0
  }

  lemma RecordedKeeps(history: seq<Row>, row: Row, key: ApiKey)
    ensures IdsIncrease(history) ==> IdsIncrease(Recorded(history, row))
    ensures SumOf(Recorded(history, row), key) ==
            SumOf(history, key) + if row.key == key && row.reason != Usage then row.delta else 0
  {
    assert Recorded(history, row)[..|history|] == history;
  }

  lemma {:induction false} RecordedAllKeeps(history: seq<Row>, rows: seq<Row>, key: ApiKey)
    ensures IdsIncrease(history) ==> IdsIncrease(RecordedAll(history, rows))
    ensures SumOf(RecordedAll(history, rows), key) == SumOf(history, key) + SumOf(rows, key)
  {
    hide Recorded, IdsIncrease;
    if rows != [] {
      RecordedAllKeeps(history, rows[..|rows| - 1], key);
      RecordedKeeps(RecordedAll(history, rows[..|rows| - 1]), rows[|rows| - 1], key);
    }
  }

  // ----- paging -----

  lemma {:induction false} NewestFirstMembers(history: seq<Row>, key: ApiKey, before: Option<nat>)
    ensures forall row :: row in NewestFirst(history, key, before) <==> row in history && Listed(row, key, before)
  {
    if history != [] {
      hide Listed;
      var front, last := history[..|history| - 1], history[|history| - 1];
      NewestFirstMembers(front, key, before);
      assert history == front + [last];
    }
  }

  ghost predicate Descending(rows: seq<Row>) {
    forall i, j | 0 <= i < j < |rows| :: rows[j].id < rows[i].id
  }

  lemma DescendingMore(row: Row, rows: seq<Row>)
    requires Descending(rows) && forall x | x in rows :: x.id < row.id
    ensures Descending([row] + rows)
  {}

  lemma LastIsNewest(history: seq<Row>)
    requires IdsIncrease(history) && history != []
    ensures IdsIncrease(history[..|history| - 1])
    ensures forall x | x in history[..|history| - 1] :: x.id < history[|history| - 1].id
  {}

  lemma {:induction false} NewestFirstDescends(history: seq<Row>, key: ApiKey, before: Option<nat>)
    requires IdsIncrease(history)
    ensures Descending(NewestFirst(history, key, before))
  {
    if history != [] {
      hide Listed, Descending, IdsIncrease;
      var front, last := history[..|history| - 1], history[|history| - 1];
      var older := NewestFirst(front, key, before);
      assert NewestFirst(history, key, before) == if Listed(last, key, before) then [last] + older else older;
      LastIsNewest(history);
      NewestFirstDescends(front, key, before);
      NewestFirstMembers(front, key, before);
      hide NewestFirst;
      DescendingMore(last, older);
    }
  }

  lemma {:induction false} Older(history: seq<Row>, key: ApiKey, before: Option<nat>, id: nat)
    requires IdsIncrease(history) && (before.Some? ==> id <= before.value)
    ensures NewestFirst(history, key, Some(id)) == OlderThan(NewestFirst(history, key, before), id)
  {
    if history != [] {
      var front, last := history[..|history| - 1], history[|history| - 1];
      Older(front, key, before, id);
      var head := if Listed(last, key, before) then [last] else [];
      OlderAppend(head, NewestFirst(front, key, before), id);
    }
  }

  function OlderThan(rows: seq<Row>, id: nat): seq<Row> {
    if rows == [] then [] else (if rows[0].id < id then [rows[0]] else []) + OlderThan(rows[1..], id)
  }

  lemma {:induction false} OlderAppend(a: seq<Row>, b: seq<Row>, id: nat)
    ensures OlderThan(a + b, id) == OlderThan(a, id) + OlderThan(b, id)
  {
    if a == [] {
      assert a + b == b;
    } else {
      assert (a + b)[1..] == a[1..] + b;
      OlderAppend(a[1..], b, id);
    }
  }

  lemma {:induction false} AllOlder(rows: seq<Row>, id: nat)
    ensures (forall i | 0 <= i < |rows| :: rows[i].id < id) ==> OlderThan(rows, id) == rows
    ensures (forall i | 0 <= i < |rows| :: rows[i].id >= id) ==> OlderThan(rows, id) == []
  {
    if rows != [] {
      AllOlder(rows[1..], id);
      assert forall i | 0 <= i < |rows| - 1 :: rows[1..][i] == rows[i + 1];
    }
  }

  /**
   Paging backwards loses nothing and repeats nothing: a page followed by everything before its
   last id is everything there was to list, newest first.
   */
  lemma PageThenRest(history: seq<Row>, key: ApiKey, before: Option<nat>, limit: nat)
    requires IdsIncrease(history) && Page(history, key, before, limit) != []
    ensures var page := Page(history, key, before, limit);
      && NewestFirst(history, key, before) == page + NewestFirst(history, key, Some(page[|page| - 1].id))
      && |page| <= MAX_HISTORY_ROWS
      && |NewestFirst(history, key, Some(page[|page| - 1].id))| < |NewestFirst(history, key, before)|
  {
    hide NewestFirst, IdsIncrease, Descending, OlderThan, Page;
    var all, page := NewestFirst(history, key, before), Page(history, key, before, limit);
    PagePrefix(history, key, before, limit);
    NewestFirstDescends(history, key, before);
    CutAt(all, |page|);
    Older(history, key, before, page[|page| - 1].id);
  }

  lemma PagePrefix(history: seq<Row>, key: ApiKey, before: Option<nat>, limit: nat)
    requires Page(history, key, before, limit) != []
    ensures var all, page := NewestFirst(history, key, before), Page(history, key, before, limit);
      && 0 < |page| <= |all| && page == all[..|page|] && |page| <= MAX_HISTORY_ROWS
      && page[|page| - 1] == all[|page| - 1]
      && (before.Some? ==> page[|page| - 1].id < before.value)
  {
    NewestFirstMembers(history, key, before);
    hide NewestFirst;
    var all, page := NewestFirst(history, key, before), Page(history, key, before, limit);
    assert all[|page| - 1] in all;
  }

  lemma CutAt(all: seq<Row>, n: nat)
    requires Descending(all) && 0 < n <= |all|
    ensures all == all[..n] + OlderThan(all, all[n - 1].id)
  {
    hide OlderThan, Descending;
    var page, rest, id := all[..n], all[n..], all[n - 1].id;
    assert all == page + rest;
    OlderAppend(page, rest, id);
    CutSides(all, n);
    AllOlder(page, id);
    AllOlder(rest, id);
  }

  lemma CutSides(all: seq<Row>, n: nat)
    requires Descending(all) && 0 < n <= |all|
    ensures forall i | 0 <= i < n :: all[..n][i].id >= all[n - 1].id
    ensures forall i | 0 <= i < |all| - n :: all[n..][i].id < all[n - 1].id
  {}

  /** All pages from `before` on. */
  ghost function Pages(history: seq<Row>, key: ApiKey, before: Option<nat>, limit: nat): seq<Row>
    requires IdsIncrease(history)
    decreases |NewestFirst(history, key, before)|
  {
    var page := Page(history, key, before, limit);
    if page == [] then [] else
    PageThenRest(history, key, before, limit);
    page + Pages(history, key, Some(page[|page| - 1].id), limit)
  }

  /** Reading page after page returns every row that is not usage exactly once, newest first. */
  lemma {:induction false} PagesCoverHistory(history: seq<Row>, key: ApiKey, before: Option<nat>, limit: nat)
    requires IdsIncrease(history)
    ensures Pages(history, key, before, limit) == NewestFirst(history, key, before)
    ensures forall row :: row in Pages(history, key, before, limit) <==> row in history && Listed(row, key, before)
    ensures Descending(Pages(history, key, before, limit))
    decreases |NewestFirst(history, key, before)|
  {
    NewestFirstMembers(history, key, before);
    NewestFirstDescends(history, key, before);
    hide NewestFirst, Listed;
    var page := Page(history, key, before, limit);
    if page != [] {
      PageThenRest(history, key, before, limit);
      PagesCoverHistory(history, key, Some(page[|page| - 1].id), limit);
    } else {
      assert |NewestFirst(history, key, before)| == 0;
    }
  }

  // ----- balances -----

  /** `lost` is what saturation cut off a key's balance. */
  datatype Book = Book(s: Store, lost: map<ApiKey, nat>)

  function LostBy(b: Book, key: ApiKey): nat { if key in b.lost then b.lost[key] else 0 }

  ghost predicate BalanceOk(clients: map<ApiKey, Client>, key: ApiKey, total: int, lost: nat) {
    if key in clients then 0 <= clients[key].balance <= I64_MAX && clients[key].balance + lost == total
    else total == 0 && lost == 0
  }

  ghost predicate DistinctPayments(payments: seq<Payment>) {
    forall i, j | 0 <= i < j < |payments| :: payments[i].signature != payments[j].signature
  }

  /** Tips in the history carry the signatures of accounted payments, each at most once. */
  ghost predicate TipsOnce(history: seq<Row>, payments: seq<Payment>) {
    && (forall i | 0 <= i < |history| && history[i].reason == Tip ::
          history[i].signature.Some? && AccountedFor(payments, history[i].signature.value))
    && (forall i, j | 0 <= i < j < |history| && history[i].reason == Tip && history[j].reason == Tip ::
          history[i].signature != history[j].signature)
  }

  ghost predicate AccountedFor(payments: seq<Payment>, signature: Signature) {
    exists k :: 0 <= k < |payments| && payments[k].signature == signature && payments[k].accounted
  }

  ghost predicate PaidAreKnown(s: Store) {
    forall i | 0 <= i < |s.payments| :: s.payments[i].signature in s.paid
  }

  ghost predicate LedgerOk(b: Book) {
    && IdsIncrease(b.s.history)
    && DistinctPayments(b.s.payments)
    && PaidAreKnown(b.s)
    && TipsOnce(b.s.history, b.s.payments)
    && (forall key :: BalanceOk(b.s.clients, key, SumOf(b.s.history, key), LostBy(b, key)))
  }

  // ----- admin changes and tiers -----

  lemma TipsKept(history: seq<Row>, row: Row, payments: seq<Payment>)
    requires TipsOnce(history, payments) && row.reason != Tip
    ensures TipsOnce(Recorded(history, row), payments)
  {
    hide AccountedFor;
  }

  lemma DeltaReason(c: Change)
    requires Delta(c).Ok?
    ensures c.reason == AdminChange || c.reason == ManualPayment
  {}

  lemma ChangeOk(b: Book, key: ApiKey, c: Change)
    requires LedgerOk(b)
    ensures LedgerOk(b.(s := ChangeCredits(b.s, key, c).0))
  {
    hide Delta, IdsIncrease, TipsOnce, SumOf, DistinctPayments, Recorded;
    var s := ChangeCredits(b.s, key, c).0;
    if ChangeCredits(b.s, key, c).1.Ok? {
      DeltaReason(c);
      var row := Row(0, key, Delta(c).value, c.reason, None);
      TipsKept(b.s.history, row, b.s.payments);
      forall k ensures BalanceOk(s.clients, k, SumOf(s.history, k), LostBy(b, k)) {
        RecordedKeeps(b.s.history, row, k);
        assert BalanceOk(b.s.clients, k, SumOf(b.s.history, k), LostBy(b, k));
      }
      RecordedKeeps(b.s.history, row, key);
    }
  }

  lemma SetTierOk(b: Book, key: ApiKey, tier: nat)
    requires LedgerOk(b)
    ensures LedgerOk(b.(s := SetTier(b.s, key, tier).0))
  {
    hide IdsIncrease, TipsOnce, SumOf, DistinctPayments;
    var s := SetTier(b.s, key, tier).0;
    forall k ensures BalanceOk(s.clients, k, SumOf(s.history, k), LostBy(b, k)) {
      assert BalanceOk(b.s.clients, k, SumOf(b.s.history, k), LostBy(b, k));
    }
  }

  // ----- registrations -----

  ghost predicate DistinctEntries(entries: seq<Entry>) {
    forall i, j | 0 <= i < j < |entries| :: entries[i].signature != entries[j].signature
  }

  /** What is accepted is new, once each, and comes from the request with its positive tip. */
  lemma {:induction false} AcceptedLaws(paid: set<Signature>, entries: seq<Entry>)
    ensures var accepted := Accepted(paid, entries);
      && DistinctEntries(accepted)
      && (forall e | e in accepted :: e in entries && e.signature !in paid)
      && (forall e | e in entries :: e.signature in paid || Names(accepted, e.signature))
  {
    if entries != [] {
      var front, last := entries[..|entries| - 1], entries[|entries| - 1];
      AcceptedLaws(paid, front);
      assert entries == front + [last];
      var before, after := Accepted(paid, front), Accepted(paid, entries);
      forall signature ensures Names(after, signature) <==> Names(before, signature) || (after != before && last.signature == signature) {
        NamesMore(before, last, signature);
      }
      hide Names;
      assert Names(after, last.signature) || last.signature in paid;
      DistinctMore(before, last);
      hide DistinctEntries;
    }
  }

  lemma NamesMore(entries: seq<Entry>, e: Entry, signature: Signature)
    ensures Names(entries + [e], signature) <==> Names(entries, signature) || e.signature == signature
  {
    if Names(entries, signature) {
      var i :| 0 <= i < |entries| && entries[i].signature == signature;
      assert (entries + [e])[i].signature == signature;
    }
    assert (entries + [e])[|entries|] == e;
  }

  lemma DistinctMore(entries: seq<Entry>, e: Entry)
    requires DistinctEntries(entries)
    ensures !Names(entries, e.signature) ==> DistinctEntries(entries + [e])
  {}

  lemma RegisterOk(b: Book, key: ApiKey, requested: seq<Submitted>)
    requires LedgerOk(b)
    ensures LedgerOk(b.(s := Register(b.s, key, requested).0))
  {
    hide IdsIncrease, TipsOnce, SumOf, BalanceOk, Accepted, Entries;
    var s := Register(b.s, key, requested).0;
    var accepted := Accepted(b.s.paid, Entries(requested));
    AcceptedLaws(b.s.paid, Entries(requested));
    TipsStay(b.s.history, b.s.payments, PaymentsOf(accepted, key));
    PaymentsDistinct(b.s, accepted, key);
    assert b.s.payments + [] == b.s.payments;
    hide DistinctPayments, PaidAreKnown, PaymentsOf, SignaturesOf;
  }

  lemma TipsStay(history: seq<Row>, payments: seq<Payment>, more: seq<Payment>)
    requires TipsOnce(history, payments)
    ensures TipsOnce(history, payments + more)
  {
    forall signature | AccountedFor(payments, signature) ensures AccountedFor(payments + more, signature) {
      var k :| 0 <= k < |payments| && payments[k].signature == signature && payments[k].accounted;
      assert (payments + more)[k] == payments[k];
    }
    hide AccountedFor;
  }

  lemma PaymentsDistinct(s: Store, accepted: seq<Entry>, key: ApiKey)
    requires DistinctPayments(s.payments) && PaidAreKnown(s) && DistinctEntries(accepted)
    requires forall e | e in accepted :: e.signature !in s.paid
    ensures DistinctPayments(s.payments + PaymentsOf(accepted, key))
    ensures PaidAreKnown(s.(paid := s.paid + SignaturesOf(accepted), payments := s.payments + PaymentsOf(accepted, key)))
  {
    var all := s.payments + PaymentsOf(accepted, key);
    forall i | |s.payments| <= i < |all| ensures all[i].signature == accepted[i - |s.payments|].signature && all[i].signature !in s.paid {
      assert accepted[i - |s.payments|] in accepted;
    }
    forall i, j | 0 <= i < j < |all| ensures all[i].signature != all[j].signature {
      assert i < |s.payments| ==> all[i] == s.payments[i] && all[i].signature in s.paid;
      assert j < |s.payments| ==> all[j] == s.payments[j];
    }
  }

  // ----- crediting -----

  /** What saturation cuts off while the first `k` payments are credited. */
  function LostUpTo(s: Store, lost: map<ApiKey, nat>, k: nat, cents: nat): map<ApiKey, nat>
    requires k <= |s.payments|
  {
    if k == 0 then lost else LostMore(LostUpTo(s, lost, k - 1, cents), CreditUpTo(s, k - 1, cents), k - 1, cents)
  }

  function LostMore(lost: map<ApiKey, nat>, c: Crediting, i: nat, cents: nat): map<ApiKey, nat>
    requires i < |c.payments|
  {
    var p := c.payments[i];
    if p.accounted || p.key !in c.clients || Worth(p, cents).None? then lost else
    var over := c.clients[p.key].balance + Worth(p, cents).value - I64_MAX;
    if over > 0 then lost[p.key := (if p.key in lost then lost[p.key] else 0) + over] else lost
  }

  ghost predicate BalancesOk(history: seq<Row>, c: Crediting, lost: map<ApiKey, nat>) {
    forall key :: BalanceOk(c.clients, key, SumOf(history, key) + SumOf(c.rows, key), if key in lost then lost[key] else 0)
  }

  lemma CreditOneBalances(s: Store, c: Crediting, lost: map<ApiKey, nat>, i: nat, cents: nat)
    requires i < |c.payments| && BalancesOk(s.history, c, lost)
    ensures BalancesOk(s.history, CreditOne(c, i, cents), LostMore(lost, c, i, cents))
  {
    hide CreditOne, LostMore, SumOf, BalanceOk;
    var after, more := CreditOne(c, i, cents), LostMore(lost, c, i, cents);
    forall key ensures BalanceOk(after.clients, key, SumOf(s.history, key) + SumOf(after.rows, key), if key in more then more[key] else 0) {
      CreditOneBalance(s, c, lost, i, cents, key);
    }
  }

  lemma CreditOneBalance(s: Store, c: Crediting, lost: map<ApiKey, nat>, i: nat, cents: nat, key: ApiKey)
    requires i < |c.payments|
    requires BalanceOk(c.clients, key, SumOf(s.history, key) + SumOf(c.rows, key), if key in lost then lost[key] else 0)
    ensures var after, more := CreditOne(c, i, cents), LostMore(lost, c, i, cents);
      BalanceOk(after.clients, key, SumOf(s.history, key) + SumOf(after.rows, key), if key in more then more[key] else 0)
  {
    hide Worth, SumOf;
    var p := c.payments[i];
    if Worth(p, cents).Some? {
      WorthPositive(p, cents);
      SumMore(c.rows, Row(0, p.key, Worth(p, cents).value, Tip, Some(p.signature)), key);
    }
  }

  lemma WorthPositive(p: Payment, cents: nat)
    requires Worth(p, cents).Some?
    ensures 0 < Worth(p, cents).value <= I64_MAX
  {}

  lemma SumMore(rows: seq<Row>, row: Row, key: ApiKey)
    ensures SumOf(rows + [row], key) == SumOf(rows, key) + if row.key == key && row.reason != Usage then row.delta else 0
  {
    assert (rows + [row])[..|rows|] == rows;
  }

  /** While payments are credited: same payments, each accounted tip named once. */
  ghost predicate TipsSoFar(s: Store, c: Crediting) {
    && |c.payments| == |s.payments|
    && (forall i | 0 <= i < |c.payments| :: c.payments[i].signature == s.payments[i].signature)
    && TipsOnce(s.history + c.rows, c.payments)
  }

  lemma CreditOneTips(s: Store, c: Crediting, i: nat, cents: nat)
    requires i < |c.payments| && DistinctPayments(s.payments) && TipsSoFar(s, c)
    ensures TipsSoFar(s, CreditOne(c, i, cents))
  {
    hide Worth;
    var p, all := c.payments[i], s.history + c.rows;
    var paid := c.payments[i := p.(accounted := true)];
    if !p.accounted {
      forall signature | AccountedFor(c.payments, signature) ensures AccountedFor(paid, signature) && signature != p.signature {
        var k :| 0 <= k < |c.payments| && c.payments[k].signature == signature && c.payments[k].accounted;
        assert paid[k].accounted;
      }
      assert AccountedFor(paid, p.signature) by {
        assert paid[i].signature == p.signature;
      }
      hide AccountedFor;
      if Worth(p, cents).Some? {
        var row := Row(0, p.key, Worth(p, cents).value, Tip, Some(p.signature));
        assert s.history + (c.rows + [row]) == all + [row];
      }
    }
  }

  lemma {:induction false} CreditUpToOk(b: Book, k: nat, cents: nat)
    requires LedgerOk(b) && k <= |b.s.payments|
    ensures BalancesOk(b.s.history, CreditUpTo(b.s, k, cents), LostUpTo(b.s, b.lost, k, cents))
    ensures TipsSoFar(b.s, CreditUpTo(b.s, k, cents))
  {
    hide CreditOne, LostMore, TipsOnce, IdsIncrease, SumOf;
    if k == 0 {
      assert b.s.history + [] == b.s.history;
      NoSum();
    } else {
      hide BalancesOk, TipsSoFar;
      CreditUpToOk(b, k - 1, cents);
      CreditOneBalances(b.s, CreditUpTo(b.s, k - 1, cents), LostUpTo(b.s, b.lost, k - 1, cents), k - 1, cents);
      CreditOneTips(b.s, CreditUpTo(b.s, k - 1, cents), k - 1, cents);
    }
  }

  lemma NoSum()
    ensures forall key :: SumOf([], key) == 0
  {}

  /** Recording gives rows their numbers and changes nothing else. */
  lemma {:induction false} RecordedAllRows(history: seq<Row>, rows: seq<Row>)
    ensures var all := RecordedAll(history, rows);
      && |all| == |history| + |rows|
      && forall i | 0 <= i < |all| :: all[i] == (history + rows)[i].(id := all[i].id)
  {
    if rows != [] {
      RecordedAllRows(history, rows[..|rows| - 1]);
    }
  }

  lemma TipsIgnoreIds(history: seq<Row>, other: seq<Row>, payments: seq<Payment>)
    requires TipsOnce(history, payments) && |other| == |history|
    requires forall i | 0 <= i < |other| :: other[i] == history[i].(id := other[i].id)
    ensures TipsOnce(other, payments)
  {
    hide AccountedFor;
  }

  lemma CreditOk(b: Book, cents: nat, updatedAt: int, now: int)
    requires LedgerOk(b) && Fresh(updatedAt, now)
    ensures LedgerOk(Book(CreditPayments(b.s, cents, updatedAt, now), LostUpTo(b.s, b.lost, |b.s.payments|, cents)))
  {
    var c, lost := CreditUpTo(b.s, |b.s.payments|, cents), LostUpTo(b.s, b.lost, |b.s.payments|, cents);
    CreditUpToOk(b, |b.s.payments|, cents);
    var history := RecordedAll(b.s.history, c.rows);
    RecordedAllRows(b.s.history, c.rows);
    TipsIgnoreIds(b.s.history + c.rows, history, c.payments);
    RecordedAllKeeps(b.s.history, c.rows, 0);
    hide CreditUpTo, LostUpTo, TipsOnce, RecordedAll, IdsIncrease, SumOf, BalanceOk;
    forall key ensures SumOf(history, key) == SumOf(b.s.history, key) + SumOf(c.rows, key) {
      RecordedAllKeeps(b.s.history, c.rows, key);
    }
  }

  // ----- who is credited what -----

  ghost predicate TipRow(rows: seq<Row>, signature: Signature) {
    exists i :: 0 <= i < |rows| && rows[i].signature == Some(signature)
  }

  /** How far a tick has got: the first `k` payments of clients are accounted, and those worth something have a row. */
  ghost predicate CreditedSoFar(s: Store, c: Crediting, k: nat, cents: nat) {
    && |c.payments| == |s.payments| && c.clients.Keys == s.clients.Keys
    && (forall i | 0 <= i < |s.payments| ::
          c.payments[i] == if i < k && Waiting(s, s.payments[i]) then s.payments[i].(accounted := true) else s.payments[i])
    && (forall j | 0 <= j < |c.rows| :: exists i :: 0 <= i < k && i < |s.payments| && RowFor(s, c.rows[j], s.payments[i], cents))
    && (forall i | 0 <= i < k && i < |s.payments| && Waiting(s, s.payments[i]) && Worth(s.payments[i], cents).Some? ::
          TipRow(c.rows, s.payments[i].signature))
  }

  /** The row credits the payment's key with what the payment is worth. */
  predicate RowFor(s: Store, row: Row, p: Payment, cents: nat) {
    && Waiting(s, p) && row.signature == Some(p.signature) && row.key == p.key && row.reason == Tip
    && Worth(p, cents) == Some(row.delta)
  }

  lemma CreditOneExact(s: Store, c: Crediting, k: nat, cents: nat)
    requires k < |s.payments| && CreditedSoFar(s, c, k, cents)
    ensures CreditedSoFar(s, CreditOne(c, k, cents), k + 1, cents)
  {
    hide Worth;
    var p, after := s.payments[k], CreditOne(c, k, cents);
    if Waiting(s, p) && Worth(p, cents).Some? {
      var row := Row(0, p.key, Worth(p, cents).value, Tip, Some(p.signature));
      assert after.rows == c.rows + [row] && RowFor(s, row, p, cents);
      assert after.rows[|c.rows|] == row;
    }
    forall signature: Signature | TipRow(c.rows, signature) ensures TipRow(after.rows, signature) {
      var i :| 0 <= i < |c.rows| && c.rows[i].signature == Some(signature);
      assert after.rows[i] == c.rows[i];
    }
    forall j | 0 <= j < |after.rows| ensures exists i :: 0 <= i < k + 1 && i < |s.payments| && RowFor(s, after.rows[j], s.payments[i], cents) {
      if j < |c.rows| {
        assert after.rows[j] == c.rows[j];
        var i :| 0 <= i < k && i < |s.payments| && RowFor(s, c.rows[j], s.payments[i], cents);
      }
    }
  }

  /**
   A tick at a fresh price accounts for every payment whose key is a client, once, and records a
   tip of exactly what it is worth, if that is anything; all other payments stay as they are.
   */
  lemma {:induction false} TickCreditsExactly(s: Store, k: nat, cents: nat)
    requires k <= |s.payments|
    ensures CreditedSoFar(s, CreditUpTo(s, k, cents), k, cents)
  {
    hide CreditedSoFar, CreditOne;
    if k == 0 {
      NothingCredited(s, cents);
    } else {
      TickCreditsExactly(s, k - 1, cents);
      CreditOneExact(s, CreditUpTo(s, k - 1, cents), k - 1, cents);
    }
  }

  lemma NothingCredited(s: Store, cents: nat)
    ensures CreditedSoFar(s, Crediting(s.clients, s.payments, []), 0, cents)
  {}

  // ----- runs -----

  datatype Event =
    | Registered(key: ApiKey, requested: seq<Submitted>)
    | Ticked(cents: nat, updatedAt: int, now: int)
    | Changed(key: ApiKey, change: Change)
    | TierSet(key: ApiKey, tier: nat)

  function Step(b: Book, e: Event): Book {
    match e
    case Registered(key, requested) => b.(s := Register(b.s, key, requested).0)
    case Ticked(cents, updatedAt, now) =>
      Book(CreditPayments(b.s, cents, updatedAt, now),
           if Fresh(updatedAt, now) then LostUpTo(b.s, b.lost, |b.s.payments|, cents) else b.lost)
    case Changed(key, change) => b.(s := ChangeCredits(b.s, key, change).0)
    case TierSet(key, tier) => b.(s := SetTier(b.s, key, tier).0)
  }

  function Run(b: Book, es: seq<Event>): Book {
    if es == [] then b else Step(Run(b, es[..|es| - 1]), es[|es| - 1])
  }

  /**
   Over any run from books in order: balances are never negative; each is the sum of the key's
   changes other than usage, less what saturation cut off; ids strictly increase; and every
   signature is credited at most once.
   */
  lemma {:induction false} LedgerHolds(b: Book, es: seq<Event>)
    requires LedgerOk(b)
    ensures LedgerOk(Run(b, es))
  {
    if es != [] {
      hide LedgerOk, Register, CreditPayments, ChangeCredits, SetTier, LostUpTo;
      LedgerHolds(b, es[..|es| - 1]);
      var before := Run(b, es[..|es| - 1]);
      match es[|es| - 1]
      case Registered(key, requested) => RegisterOk(before, key, requested);
      case Ticked(cents, updatedAt, now) =>
        if Fresh(updatedAt, now) {
          CreditOk(before, cents, updatedAt, now);
        } else {
          StaleKeeps(before.s, cents, updatedAt, now);
        }
      case Changed(key, change) => ChangeOk(before, key, change);
      case TierSet(key, tier) => SetTierOk(before, key, tier);
    }
  }

  lemma StaleKeeps(s: Store, cents: nat, updatedAt: int, now: int)
    requires !Fresh(updatedAt, now)
    ensures CreditPayments(s, cents, updatedAt, now) == s
  {}

  lemma EmptyLedger(apiKeys: set<ApiKey>)
    ensures LedgerOk(Book(Store(apiKeys, map[], [], {}, []), map[]))
  {}
}
