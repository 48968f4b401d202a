/** The store of the admin service, updated in place under its lock. */
module CreditStore {
  import opened Options
  import opened CreditSpec

  class Ledger {
    const apiKeys: set<ApiKey>
    var clients: map<ApiKey, Client>
    var history: seq<Row>
    var paid: set<Signature>
    var payments: seq<Payment>

    ghost function View(): Store
      reads this
    {
      Store(apiKeys, clients, history, paid, payments)
    }

    constructor (apiKeys: set<ApiKey>)
      ensures View() == Store(apiKeys, map[], [], {}, [])
    {
      this.apiKeys, clients, history, paid, payments := apiKeys, map[], [], {}, [];
    }

    method Record(row: Row)
      modifies this`history
      ensures history == Recorded(old(history), row)
    {
      var id := if history == [] then 1 else history[|history| - 1].id + 1;
      history := history + [row.(id := id)];
    }

    method ChangeCredits(key: ApiKey, c: Change) returns (r: Result<int>)
      modifies this
      ensures (View(), r) == CreditSpec.ChangeCredits(old(View()), key, c)
    {
      hide Delta, Recorded;
      var delta := Delta(c);
      if delta.Err? {
        return Err(delta.error);
      }
      if key !in clients {
        return Err(NotFound);
      }
      var balance := clients[key].balance + delta.value;
      if balance > I64_MAX {
        return Err(BalanceOverflow);
      }
      if balance < 0 {
        return Err(BalanceBelowZero);
      }
      clients := clients[key := clients[key].(balance := balance)];
      Record(Row(0, key, delta.value, c.reason, None));
      r := Ok(balance);
    }

    method SetTier(key: ApiKey, tier: nat) returns (r: Result<int>)
      modifies this
      ensures (View(), r) == CreditSpec.SetTier(old(View()), key, tier)
    {
      if key !in apiKeys {
        return Err(NotFound);
      }
      var client := if key in clients then clients[key] else Client(tier, 0);
      clients := clients[key := client.(tier := tier)];
      r := Ok(client.balance);
    }

    /** Collect the tips of a request; the same signature twice counts once. */
    static method CollectTips(requested: seq<Submitted>) returns (entries: seq<Entry>)
      ensures entries == Entries(requested)
    {
      entries := [];
      var seen: set<Signature> := {};
      for i := 0 to |requested|
        invariant entries == Entries(requested[..i])
        invariant forall signature :: signature in seen <==> Names(entries, signature)
      {
        assert requested[..i + 1][..i] == requested[..i];
        match requested[i] {
          case Rejected =>
          case Tipped(signature, lamports) =>
            if lamports > 0 && signature !in seen {
              NamesGrow(entries, Entry(signature, lamports));
              seen := seen + {signature};
              entries := entries + [Entry(signature, lamports)];
            }
        }
      }
      assert requested[..|requested|] == requested;
    }

    method RegisterPayments(key: ApiKey, requested: seq<Submitted>) returns (r: Result<seq<Entry>>)
      modifies this
      ensures (View(), r) == Register(old(View()), key, requested)
    {
      hide Entries, Accepted;
      if requested == [] {
        return Err(NoTransactions);
      }
      if |requested| > MAX_POSTPACK_PAY_TRANSACTIONS {
        return Err(TooManyTransactions);
      }
      var entries := CollectTips(requested);
      if key !in apiKeys {
        return Err(UnknownApiKey);
      }
      var accepted := AcceptEntries(key, entries);
      r := Ok(accepted);
    }

    /** Register the entries whose signature was never paid with before. */
    method AcceptEntries(key: ApiKey, entries: seq<Entry>) returns (accepted: seq<Entry>)
      modifies this`paid, this`payments
      ensures accepted == Accepted(old(paid), entries)
      ensures paid == old(paid) + SignaturesOf(accepted)
      ensures payments == old(payments) + PaymentsOf(accepted, key)
    {
      accepted := [];
      for i := 0 to |entries|
        invariant accepted == Accepted(old(paid), entries[..i])
        invariant paid == old(paid) + SignaturesOf(accepted)
        invariant payments == old(payments) + PaymentsOf(accepted, key)
      {
        var e := entries[i];
        assert entries[..i + 1][..i] == entries[..i];
        assert e.signature in SignaturesOf(accepted) <==> Names(accepted, e.signature);
        if e.signature !in paid {
          AcceptMore(accepted, e, key);
          paid := paid + {e.signature};
          payments := payments + [Payment(e.signature, key, e.tip, false)];
          accepted := accepted + [e];
        }
      }
      assert entries[..|entries|] == entries;
    }

    method CreditPayments(cents: nat, updatedAt: int, now: int) returns (count: nat)
      modifies this
      ensures View() == CreditSpec.CreditPayments(old(View()), cents, updatedAt, now)
      ensures count == if Fresh(updatedAt, now) then |CreditUpTo(old(View()), |old(payments)|, cents).rows| else 0
    {
      hide Worth;
      if !Fresh(updatedAt, now) {
        return 0;
      }
      var credited: seq<Row> := [];
      for i := 0 to |payments|
        modifies `clients, `payments
        invariant |payments| == |old(payments)|
        invariant Crediting(clients, payments, credited) == CreditUpTo(old(View()), i, cents)
      {
        var p := payments[i];
        if !p.accounted && p.key in clients {
          payments := payments[i := p.(accounted := true)];
          var credits := Worth(p, cents);
          if credits.Some? {
            var client := clients[p.key];
            clients := clients[p.key := client.(balance := AddCredits(client.balance, credits.value))];
            credited := credited + [Row(0, p.key, credits.value, Tip, Some(p.signature))];
          }
        }
      }
      hide CreditUpTo;
      RecordAll(credited);
      count := |credited|;
    }

    method RecordAll(rows: seq<Row>)
      modifies this`history
      ensures history == RecordedAll(old(history), rows)
    {
      for i := 0 to |rows|
        invariant history == RecordedAll(old(history), rows[..i])
      {
        assert rows[..i + 1][..i] == rows[..i];
        Record(rows[i]);
      }
      assert rows[..|rows|] == rows;
    }

    /** One page of a key's history, newest first. */
    method GetHistory(key: ApiKey, before: Option<nat>, limit: nat) returns (page: seq<Row>)
      ensures page == Page(history, key, before, limit)
    {
      hide Listed, NewestFirst;
      page := [];
      var i := |history|;
      assert history[..i] == history;
      ghost var rest := NewestFirst(history[..i], key, before);
      assert page + rest == NewestFirst(history, key, before);
      while i > 0 && |page| < Clamp(limit)
        invariant 0 <= i <= |history| && |page| <= Clamp(limit)
        invariant rest == NewestFirst(history[..i], key, before)
        invariant NewestFirst(history, key, before) == page + rest
      {
        i := i - 1;
        NewestStep(history, i, key, before);
        rest := NewestFirst(history[..i], key, before);
        if Listed(history[i], key, before) {
          page := page + [history[i]];
        }
      }
      if i == 0 {
        NothingOlder(history[..i], key, before);
      }
    }
  }

  lemma NothingOlder(history: seq<Row>, key: ApiKey, before: Option<nat>)
    requires history == []
    ensures NewestFirst(history, key, before) == []
  {}

  lemma NewestStep(history: seq<Row>, i: nat, key: ApiKey, before: Option<nat>)
    requires i < |history|
    ensures NewestFirst(history[..i + 1], key, before) ==
            (if Listed(history[i], key, before) then [history[i]] else []) + NewestFirst(history[..i], key, before)
  {
    assert history[..i + 1][..i] == history[..i];
  }

  lemma NamesGrow(entries: seq<Entry>, e: Entry)
    ensures forall signature :: Names(entries + [e], signature) <==> Names(entries, signature) || signature == e.signature
  {
    var all := entries + [e];
    assert all[|entries|] == e;
    forall signature | Names(entries, signature) ensures Names(all, signature) {
      var i :| 0 <= i < |entries| && entries[i].signature == signature;
      assert all[i].signature == signature;
    }
  }

  lemma AcceptMore(accepted: seq<Entry>, e: Entry, key: ApiKey)
    ensures SignaturesOf(accepted + [e]) == SignaturesOf(accepted) + {e.signature}
    ensures PaymentsOf(accepted + [e], key) == PaymentsOf(accepted, key) + [Payment(e.signature, key, e.tip, false)]
  {
    var all := accepted + [e];
    assert all[|accepted|] == e;
    forall signature ensures signature in SignaturesOf(all) <==> signature in SignaturesOf(accepted) + {e.signature} {
      if signature in SignaturesOf(accepted) {
        var i :| 0 <= i < |accepted| && accepted[i].signature == signature;
        assert all[i].signature == signature;
      }
    }
  }
}
