/** The laws of one window: no sampled slot is lost, and what is handed out obeys its limits. */
module AuditLaws {
  import opened Options
  import opened AuditSpec

  // ----- every slot the cursor passed is accounted for -----

  /** The cursor `k` sampled slots past `first`. */
  function Past(first: nat, n: nat, k: nat): nat { first + n * k }

  function Accounted(w: Window): nat { w.slotsChecked + w.slotsSkipped + w.slotsUnchecked + w.inFlight }

  /** Each slot from the first cursor position on is checked, skipped, unchecked or in flight. */
  ghost predicate CursorOk(w: Window, first: Option<nat>, n: nat)
    requires n > 0
  {
    && (w.nextCheck.Some? <==> first.Some?)
    && (first.None? ==> Accounted(w) == 0)
    && (first.Some? ==> first.value % n == 0 && w.nextCheck.value == Past(first.value, n, Accounted(w)))
  }

  lemma Distribute(n: int, p: int, q: int)
    ensures n * p - n * q == n * (p - q)
  {}

  lemma AtLeastOnce(n: nat, k: int)
    requires k >= 1
    ensures n * k >= n
  {
    Distribute(n, k, 1);
    assert n * (k - 1) >= 0;
  }

  /** Quotient and remainder are unique. */
  lemma Divided(a: int, n: nat, q: int, r: int)
    requires n > 0 && a == n * q + r && 0 <= r < n
    ensures a / n == q && a % n == r
  {
    var p := a / n;
    assert a == n * p + a % n;
    Distribute(n, p, q);
    Distribute(n, q, p);
    if p > q {
      AtLeastOnce(n, p - q);
    } else if p < q {
      AtLeastOnce(n, q - p);
    }
  }

  lemma CeilMultiple(x: nat, n: nat)
    requires n > 0
    ensures CeilTo(x, n) % n == 0 && x <= CeilTo(x, n) < x + n
  {
    var q := (x + n - 1) / n;
    assert q * n == n * q;
    Divided(n * q, n, q, 0);
  }

  lemma PastMore(first: nat, n: nat, k: nat, m: nat)
    ensures Past(first, n, k + m) == Past(first, n, k) + n * m
  {
    Distribute(n, k + m, k);
  }

  lemma PastMultiple(first: nat, n: nat, k: nat)
    requires n > 0 && first % n == 0
    ensures Past(first, n, k) % n == 0
  {
    var q := first / n;
    assert first == n * q;
    Distribute(n, q + k, q);
    Divided(Past(first, n, k), n, q + k, 0);
  }

  lemma Jumped(next: nat, floor: nat, n: nat)
    requires n > 0 && next % n == 0 && next < floor
    ensures CeilTo(floor, n) > next
    ensures CeilTo(floor, n) == next + n * (Monus(CeilTo(floor, n), next) / n)
  {
    CeilMultiple(floor, n);
    ExactDivision(CeilTo(floor, n), next, n);
  }

  lemma ExactDivision(a: nat, b: nat, n: nat)
    requires n > 0 && a % n == 0 && b % n == 0 && b <= a
    ensures a == b + n * ((a - b) / n)
  {
    var p, q := a / n, b / n;
    assert a == n * p && b == n * q;
    Distribute(n, p, q);
    Divided(a - b, n, p - q, 0);
  }

  /** Where the cursor of a window started, after a hand-out. */
  ghost function FirstAfter(w: Window, first: Option<nat>, tip: nat, n: nat): Option<nat>
    requires n > 0
  {
    var filled := FillTip(w, tip);
    if first.Some? || Waits(filled, tip) then first else Some(Cursor(filled, n))
  }

  lemma PositionedCursor(w: Window, first: Option<nat>, tip: nat, lag: nat, n: nat)
    requires n > 0 && StartSlot(w).Some? && CursorOk(w, first, n)
    ensures var f := if first.Some? then first else Some(Cursor(w, n));
      CursorOk(Positioned(w, tip, lag, n), f, n)
    ensures Positioned(w, tip, lag, n).inFlight == w.inFlight
    ensures Positioned(w, tip, lag, n).nextCheck.value >= Monus(tip, lag + MAX_CURSOR_LAG_SLOTS)
    ensures Positioned(w, tip, lag, n).nextCheck.value >= Cursor(w, n)
  {
    hide CeilTo;
    var next, floor := Cursor(w, n), Monus(tip, lag + MAX_CURSOR_LAG_SLOTS);
    CeilMultiple(StartSlot(w).value, n);
    CeilMultiple(floor, n);
    var f := if first.Some? then first.value else next;
    PastMultiple(f, n, Accounted(w));
    assert Past(f, n, 0) == f;
    if next < floor {
      Jumped(next, floor, n);
      PastMore(f, n, Accounted(w), Monus(CeilTo(floor, n), next) / n);
    }
  }

  lemma HandOneCursor(w: Window, first: Option<nat>, n: nat)
    requires n > 0 && w.nextCheck.Some? && CursorOk(w, first, n)
    ensures CursorOk(HandOne(w, n), first, n)
  {
    PastMore(first.value, n, Accounted(w), 1);
  }

  /** The slots handed out: consecutive multiples, in the range, far enough behind the tip. */
  ghost predicate HandedOk(key: WindowKey, tasks: seq<SlotTask>, next: nat, end: nat, tip: nat, lag: nat, n: nat) {
    forall i | 0 <= i < |tasks| ::
      && tasks[i].key == key && tasks[i].attempts == 0
      && tasks[i].slot == Past(next, n, i)
      && tasks[i].slot <= end && tasks[i].slot + lag <= tip
  }

  lemma {:induction false} HandLaws(key: WindowKey, w: Window, first: Option<nat>, end: nat, tip: nat, lag: nat, n: nat, budget: nat)
    requires n > 0 && w.nextCheck.Some? && CursorOk(w, first, n)
    ensures var (after, tasks) := Hand(key, w, end, tip, lag, n, budget);
      && CursorOk(after, first, n)
      && after.inFlight == w.inFlight + |tasks|
      && |tasks| <= budget
      && HandedOk(key, tasks, w.nextCheck.value, end, tip, lag, n)
      && after.nextCheck == Some(Past(w.nextCheck.value, n, |tasks|))
      && (|tasks| == budget || !CanHand(after, end, tip, lag))
    decreases budget
  {
    hide CursorOk, Past, TaskAt;
    PastNone(w.nextCheck.value, n);
    if budget > 0 && CanHand(w, end, tip, lag) {
      HandOneCursor(w, first, n);
      var next, one := w.nextCheck.value, HandOne(w, n);
      HandLaws(key, one, first, end, tip, lag, n, budget - 1);
      var (after, tasks) := Hand(key, one, end, tip, lag, n, budget - 1);
      HandedMore(key, w, tasks, end, tip, lag, n);
      PastShift(next, n, |tasks|);
    }
  }

  lemma PastNone(first: nat, n: nat)
    ensures Past(first, n, 0) == first
  {}

  lemma PastShift(next: nat, n: nat, i: nat)
    ensures Past(next + n, n, i) == Past(next, n, i + 1)
  {
    PastMore(next, n, i, 1);
  }

  lemma HandedMore(key: WindowKey, w: Window, tasks: seq<SlotTask>, end: nat, tip: nat, lag: nat, n: nat)
    requires CanHand(w, end, tip, lag) && HandedOk(key, tasks, w.nextCheck.value + n, end, tip, lag, n)
    ensures HandedOk(key, [TaskAt(key, w)] + tasks, w.nextCheck.value, end, tip, lag, n)
  {
    hide Past;
    var next, all := w.nextCheck.value, [TaskAt(key, w)] + tasks;
    PastNone(next, n);
    forall i: nat | i < |all| ensures i > 0 ==> all[i] == tasks[i - 1] && Past(next, n, i) == Past(next + n, n, i - 1) {
      if i > 0 {
        PastShift(next, n, i - 1);
      }
    }
  }

  /** Where a hand-out starts. */
  ghost function HandFrom(w: Window, tip: nat, lag: nat, n: nat): nat
    requires n > 0 && !Waits(FillTip(w, tip), tip)
  {
    Positioned(FillTip(w, tip), tip, lag, n).nextCheck.value
  }

  /**
   One tick of a window: the slots handed out are at most 32 consecutive sampled slots from the
   cursor on, up to the end of the audited range and `lag` behind the tip, and there are any as
   soon as the first of them is that far; the cursor ends right behind them; a jump of the cursor
   is on record as unchecked slots.
   */
  lemma ReadyLaws(key: WindowKey, w: Window, first: Option<nat>, tip: nat, lag: nat, n: nat)
    requires n > 0 && CursorOk(w, first, n)
    ensures var (after, tasks) := Ready(key, w, tip, lag, n);
      && CursorOk(after, FirstAfter(w, first, tip, n), n)
      && after.inFlight == w.inFlight + |tasks|
      && |tasks| <= MAX_TASKS_PER_WINDOW
      && (Waits(FillTip(w, tip), tip) ==> tasks == [] && after == FillTip(w, tip))
      && (!Waits(FillTip(w, tip), tip) ==>
            var next := HandFrom(w, tip, lag, n);
            && HandedOk(key, tasks, next, EndSlot(w, tip), tip, lag, n)
            && after.nextCheck == Some(Past(next, n, |tasks|))
            && (tasks == [] <==> next > EndSlot(w, tip) || next + lag > tip)
            && Cursor(FillTip(w, tip), n) <= next && Monus(tip, lag + MAX_CURSOR_LAG_SLOTS) <= next)
  {
    hide CursorOk, Cursor, HandedOk, Past;
    var filled := FillTip(w, tip);
    FillTipCursor(w, first, tip, n);
    if !Waits(filled, tip) {
      var f := if first.Some? then first else Some(Cursor(filled, n));
      PositionedCursor(filled, first, tip, lag, n);
      var at := Positioned(filled, tip, lag, n);
      assert EndSlot(at, tip) == EndSlot(w, tip);
      HandLaws(key, at, f, EndSlot(at, tip), tip, lag, n, MAX_TASKS_PER_WINDOW);
      HandsSome(key, at, EndSlot(at, tip), tip, lag, n, MAX_TASKS_PER_WINDOW);
      hide EndSlot;
      PruneCursor(Hand(key, at, EndSlot(at, tip), tip, lag, n, MAX_TASKS_PER_WINDOW).0, f, n);
    }
  }

  lemma HandsSome(key: WindowKey, w: Window, end: nat, tip: nat, lag: nat, n: nat, budget: nat)
    requires budget > 0
    ensures Hand(key, w, end, tip, lag, n, budget).1 == [] <==> !CanHand(w, end, tip, lag)
  {
    hide CanHand;
  }

  lemma FillTipCursor(w: Window, first: Option<nat>, tip: nat, n: nat)
    requires n > 0 && CursorOk(w, first, n)
    ensures CursorOk(FillTip(w, tip), first, n) && FillTip(w, tip).inFlight == w.inFlight
    ensures !Waits(FillTip(w, tip), tip) ==> StartSlot(FillTip(w, tip)).Some?
  {}

  lemma PruneCursor(w: Window, first: Option<nat>, n: nat)
    requires n > 0 && CursorOk(w, first, n)
    ensures CursorOk(Prune(w), first, n) && Prune(w).inFlight == w.inFlight && Prune(w).nextCheck == w.nextCheck
  {}

  /** A task that comes back moves from in flight to checked, skipped or unchecked; the subtraction never clips. */
  lemma SettleLaws(w: Window, first: Option<nat>, n: nat, o: Outcome)
    requires n > 0 && CursorOk(w, first, n) && w.inFlight > 0
    ensures CursorOk(Settle(w, o), first, n) && Settle(w, o).inFlight == w.inFlight - 1
  {}

  /** Nothing else moves the cursor or its counters. */
  lemma OthersLeaveCursor(w: Window, first: Option<nat>, n: nat, tip: nat, now: nat, d: Delivery, skipVotes: bool)
    requires n > 0 && CursorOk(w, first, n)
    ensures CursorOk(Subscribe(w, tip), first, n) && CursorOk(Close(w, tip, now), first, n)
    ensures CursorOk(Deliver(w, d, n, skipVotes), first, n)
  {}

  /** A reported window accounts for every sampled slot its cursor passed, the tasks still out included. */
  lemma FinishedAccounts(w: Window, first: Option<nat>, n: nat)
    requires n > 0 && CursorOk(w, first, n) && first.Some?
    ensures var f := Finished(w);
      && f.nextCheck.Some? && f.nextCheck.value >= first.value
      && (f.nextCheck.value - first.value) / n == f.slotsChecked + f.slotsSkipped + f.slotsUnchecked
  {
    PastMore(first.value, n, 0, Accounted(w));
    Divided(w.nextCheck.value - first.value, n, Accounted(w), 0);
  }
}
