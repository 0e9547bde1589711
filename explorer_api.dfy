/**
 * Waiting for transactions to be confirmed through the Ergo explorer.
 *
 * `wait_for_txs_confirmation` keeps a pending list, initially the requested ids. Each sweep looks
 * up every id of a snapshot of that list taken when the sweep starts, and every id the explorer
 * finds is removed from the list (all its occurrences, the others keeping their order). After a
 * sweep the function stops when nothing is pending, else stops when more than 600 s have passed
 * since it started, else sleeps 10 s and sweeps again. A transaction returned with another id
 * than the one asked for aborts (the source's `assert_eq!`).
 *
 * The explorer is abstracted as `lookup(sweep, id)`, the answer to the request for `id` during
 * sweep number `sweep` (counted from 1). The clock is abstracted as `elapsed(n)`, the time in
 * nanoseconds since the start as read by the timeout check after sweep `n`; since every sweep but
 * the first follows a 10 s sleep, `elapsed(n)` is at least `(n - 1)` sleeps.
 */
module ExplorerApi {
  import opened Base
  import opened AddressEncoding

  /** A transaction id (a 32-byte digest in ergo_lib; its width plays no part here). */
  datatype TxId = TxId(digest: seq<Byte>)

  /** The part of a fetched transaction the loop looks at. */
  datatype Transaction = Transaction(id: TxId)

  /** `ExplorerApiError`: the reason travels as text, the library error values are not modelled. */
  datatype ExplorerApiError =
    | RequestError(reason: string)
    | SerdeError(reason: string)
    | InvalidExplorerUrl(reason: string)

  /** The result of one `get_transaction` request. */
  datatype Lookup = Found(tx: Transaction) | Failed(error: ExplorerApiError)

  /** `Duration::from_secs(600)`, in nanoseconds. */
  const TimeoutNanos: nat := 600_000_000_000

  /** The sleep between two sweeps, `Duration::from_secs(10)`, in nanoseconds. */
  const SleepNanos: nat := 10_000_000_000

  /** No run can go past this sweep: after it at least 61 sleeps, 610 s, have passed. */
  const MaxSweeps: nat := 62

  // ---------------------------------------------------------------- explorer selection

  const MainnetExplorerUrl: string := "https://api.ergoplatform.com/api/v1/"
  const TestnetExplorerUrl: string := "https://api-testnet.ergoplatform.com/api/v1/"

  /** The explorer the oracle's network uses. */
  function ExplorerUrl(network: NetworkPrefix): (url: string)
    ensures network == Mainnet ==> url == MainnetExplorerUrl
    ensures network == Testnet ==> url == TestnetExplorerUrl
  {
    match network
    case Mainnet => MainnetExplorerUrl
    case Testnet => TestnetExplorerUrl
  }

  // ---------------------------------------------------------------- sub-sequences and retain

  /** `a` is `b` with some elements left out, the others in their order. */
  predicate IsSubsequence(a: seq<TxId>, b: seq<TxId>)
    decreases |b|
  {
    if a == [] then true
    else if b == [] then false
    else if a[0] == b[0] then IsSubsequence(a[1..], b[1..])
    else IsSubsequence(a, b[1..])
  }

  lemma {:induction false} SubsequenceReflexive(a: seq<TxId>)
    ensures IsSubsequence(a, a)
  {
    if a != [] {
      SubsequenceReflexive(a[1..]);
    }
  }

  lemma {:induction false} SubsequenceMembers(a: seq<TxId>, b: seq<TxId>)
    requires IsSubsequence(a, b)
    ensures |a| <= |b|
    ensures forall x :: x in a ==> x in b
    decreases |b|
  {
    if a != [] {
      assert forall x :: x in b[1..] ==> x in b;
      if a[0] == b[0] {
        SubsequenceMembers(a[1..], b[1..]);
        assert forall x :: x in a ==> x == a[0] || x in a[1..];
      } else {
        SubsequenceMembers(a, b[1..]);
      }
    }
  }

  lemma {:induction false} SubsequenceTransitive(a: seq<TxId>, b: seq<TxId>, c: seq<TxId>)
    requires IsSubsequence(a, b) && IsSubsequence(b, c)
    ensures IsSubsequence(a, c)
    decreases |c|
  {
    if a != [] {
      SubsequenceMembers(b, c);
      assert b != [] && c != [];
      if b[0] == c[0] {
        if a[0] == b[0] {
          SubsequenceTransitive(a[1..], b[1..], c[1..]);
        } else {
          SubsequenceTransitive(a, b[1..], c[1..]);
        }
      } else {
        SubsequenceTransitive(a, b, c[1..]);
        SubsequenceDropFirst(a, c);
      }
    }
  }

  /** `s.retain(|id| *id != x)`: every occurrence of `x` removed, the rest kept in order. */
  function Without(s: seq<TxId>, x: TxId): (r: seq<TxId>)
    ensures forall y :: y in r <==> y in s && y != x
    ensures multiset(r) == multiset(s)[x := 0]
    ensures IsSubsequence(r, s)
  {
    if s == [] then []
    else
      var rest := Without(s[1..], x);
      assert s == [s[0]] + s[1..];
      if s[0] == x then
        SubsequenceDropFirst(rest, s);
        rest
      else
        assert ([s[0]] + rest)[1..] == rest;
        [s[0]] + rest
  }

  lemma {:induction false} SubsequenceDropFirst(a: seq<TxId>, b: seq<TxId>)
    requires b != [] && IsSubsequence(a, b[1..])
    ensures IsSubsequence(a, b)
    decreases |b|, |a|
  {
    if a != [] && a[0] == b[0] {
      SubsequenceTail(a, b[1..]);
    }
  }

  lemma {:induction false} SubsequenceTail(a: seq<TxId>, b: seq<TxId>)
    requires a != [] && IsSubsequence(a, b)
    ensures IsSubsequence(a[1..], b)
    decreases |b|, |a|
  {
    if a[0] != b[0] {
      SubsequenceTail(a, b[1..]);
    }
    SubsequenceDropFirst(a[1..], b);
  }

  // ---------------------------------------------------------------- one sweep

  /** What a sweep ends with: the ids still pending, or the mismatch that aborted it. */
  datatype SweepOutcome = Swept(pending: seq<TxId>) | Mismatch(requested: TxId, returned: TxId)

  /**
   * The sweep over `snapshot[i..]` starting from the pending list `pending`: a found id is
   * removed, a failed lookup changes nothing, a transaction with another id aborts.
   */
  function SweepSpec(pending: seq<TxId>, snapshot: seq<TxId>, i: nat, sweep: nat,
                     lookup: (nat, TxId) -> Lookup): SweepOutcome
    decreases |snapshot| - i
  {
    if i >= |snapshot| then Swept(pending)
    else
      match lookup(sweep, snapshot[i])
      case Failed(_) => SweepSpec(pending, snapshot, i + 1, sweep, lookup)
      case Found(tx) =>
        if tx.id != snapshot[i] then Mismatch(snapshot[i], tx.id)
        else SweepSpec(Without(pending, snapshot[i]), snapshot, i + 1, sweep, lookup)
  }

  /**
   * A completed sweep keeps a sub-sequence of the pending list: exactly the ids not found in this
   * sweep among those it looked up; and every id it found came back with the id asked for.
   */
  lemma {:induction false} SweptFacts(pending: seq<TxId>, snapshot: seq<TxId>, i: nat, sweep: nat,
                                      lookup: (nat, TxId) -> Lookup)
    requires i <= |snapshot|
    requires SweepSpec(pending, snapshot, i, sweep, lookup).Swept?
    ensures var r := SweepSpec(pending, snapshot, i, sweep, lookup).pending;
            IsSubsequence(r, pending) &&
            forall x :: x in r <==> x in pending && (x in snapshot[i..] ==> !lookup(sweep, x).Found?)
    ensures forall x :: x in snapshot[i..] && lookup(sweep, x).Found? ==> lookup(sweep, x).tx.id == x
    decreases |snapshot| - i
  {
    if i < |snapshot| {
      assert forall x :: x in snapshot[i..] <==> x == snapshot[i] || x in snapshot[i + 1..];
      var next := if lookup(sweep, snapshot[i]).Found? then Without(pending, snapshot[i]) else pending;
      SweptFacts(next, snapshot, i + 1, sweep, lookup);
      var r := SweepSpec(pending, snapshot, i, sweep, lookup).pending;
      if lookup(sweep, snapshot[i]).Found? {
        SubsequenceTransitive(r, next, pending);
      } else {
        SubsequenceReflexive(pending);
      }
    } else {
      SubsequenceReflexive(pending);
    }
  }

  /** An aborted sweep asked for an id of its snapshot and got a transaction with another id. */
  lemma {:induction false} MismatchFacts(pending: seq<TxId>, snapshot: seq<TxId>, i: nat, sweep: nat,
                                         lookup: (nat, TxId) -> Lookup)
    requires i <= |snapshot|
    requires SweepSpec(pending, snapshot, i, sweep, lookup).Mismatch?
    ensures var m := SweepSpec(pending, snapshot, i, sweep, lookup);
            m.requested in snapshot[i..] && m.returned != m.requested &&
            lookup(sweep, m.requested) == Found(Transaction(m.returned))
    decreases |snapshot| - i
  {
    if lookup(sweep, snapshot[i]).Found? && lookup(sweep, snapshot[i]).tx.id != snapshot[i] {
    } else {
      var next := if lookup(sweep, snapshot[i]).Found? then Without(pending, snapshot[i]) else pending;
      MismatchFacts(next, snapshot, i + 1, sweep, lookup);
      assert snapshot[i + 1..] == snapshot[i..][1..];
    }
  }

  /** One sweep: `for tx_id in remaining_txs.clone() { ... }`. */
  method Sweep(remainingTxs: seq<TxId>, sweep: nat, lookup: (nat, TxId) -> Lookup) returns (r: SweepOutcome)
    ensures r == SweepSpec(remainingTxs, remainingTxs, 0, sweep, lookup)
  {
    var snapshot := remainingTxs;
    var remaining := remainingTxs;
    for i := 0 to |snapshot|
      invariant SweepSpec(remaining, snapshot, i, sweep, lookup) == SweepSpec(remainingTxs, snapshot, 0, sweep, lookup)
    {
      var txId := snapshot[i];
      match lookup(sweep, txId) {
        case Found(tx) =>
          if tx.id != txId {
            return Mismatch(txId, tx.id);
          }
          remaining := Without(remaining, txId);
        case Failed(_) =>
      }
    }
    return Swept(remaining);
  }

  // ---------------------------------------------------------------- the waiting loop

  /** How the wait ends; the source returns nothing and these are its three ways out of the loop. */
  datatype WaitOutcome = AllConfirmed | TimedOut(remaining: seq<TxId>) | Aborted(requested: TxId, returned: TxId)

  /** Every sweep after the first follows a 10 s sleep, so the clock has advanced at least that much. */
  ghost predicate SleepsElapse(elapsed: nat -> nat) {
    forall n: nat :: 1 <= n ==> elapsed(n) >= (n - 1) * SleepNanos
  }

  /**
   * The wait from sweep number `sweep` on, with pending list `remaining`: the outcome and the
   * number of the last sweep.
   */
  ghost function WaitFrom(remaining: seq<TxId>, sweep: nat, lookup: (nat, TxId) -> Lookup,
                          elapsed: nat -> nat): (WaitOutcome, nat)
    requires 1 <= sweep <= MaxSweeps && SleepsElapse(elapsed)
    decreases MaxSweeps - sweep
  {
    match SweepSpec(remaining, remaining, 0, sweep, lookup)
    case Mismatch(requested, returned) => (Aborted(requested, returned), sweep)
    case Swept(pending) =>
      if |pending| == 0 then (AllConfirmed, sweep)
      else if elapsed(sweep) > TimeoutNanos then (TimedOut(pending), sweep)
      else
        assert elapsed(sweep) >= (sweep - 1) * SleepNanos;
        WaitFrom(pending, sweep + 1, lookup, elapsed)
  }

  /** The id was not found in any of the sweeps `from` to `to`. */
  ghost predicate NeverFound(lookup: (nat, TxId) -> Lookup, x: TxId, from: nat, to: nat) {
    forall s :: from <= s <= to ==> !lookup(s, x).Found?
  }

  /** Some sweep from `from` to `to` found the id, with the id asked for. */
  ghost predicate FoundIn(lookup: (nat, TxId) -> Lookup, x: TxId, from: nat, to: nat) {
    exists s :: from <= s <= to && lookup(s, x) == Found(Transaction(x))
  }

  /** One sweep over the whole pending list, as the waiting loop runs it. */
  lemma SweepOnce(remaining: seq<TxId>, sweep: nat, lookup: (nat, TxId) -> Lookup)
    ensures var r := SweepSpec(remaining, remaining, 0, sweep, lookup);
            (r.Swept? ==>
               IsSubsequence(r.pending, remaining) &&
               (forall x :: x in r.pending <==> x in remaining && !lookup(sweep, x).Found?) &&
               (forall x :: x in remaining && lookup(sweep, x).Found? ==> lookup(sweep, x) == Found(Transaction(x)))) &&
            (r.Mismatch? ==>
               r.requested in remaining && r.returned != r.requested &&
               lookup(sweep, r.requested) == Found(Transaction(r.returned)))
  {
    assert remaining[0..] == remaining;
    if SweepSpec(remaining, remaining, 0, sweep, lookup).Swept? {
      SweptFacts(remaining, remaining, 0, sweep, lookup);
    } else {
      MismatchFacts(remaining, remaining, 0, sweep, lookup);
    }
  }

  /** A sweep that leaves ids pending without the timeout firing is followed by the next sweep. */
  lemma WaitContinues(remaining: seq<TxId>, sweep: nat, lookup: (nat, TxId) -> Lookup, elapsed: nat -> nat)
    requires 1 <= sweep <= MaxSweeps && SleepsElapse(elapsed)
    requires SweepSpec(remaining, remaining, 0, sweep, lookup).Swept?
    requires |SweepSpec(remaining, remaining, 0, sweep, lookup).pending| != 0
    requires elapsed(sweep) <= TimeoutNanos
    ensures sweep < MaxSweeps
    ensures WaitFrom(remaining, sweep, lookup, elapsed) ==
            WaitFrom(SweepSpec(remaining, remaining, 0, sweep, lookup).pending, sweep + 1, lookup, elapsed)
  {
    assert elapsed(sweep) >= (sweep - 1) * SleepNanos;
  }

  /** The loop ends by sweep 62 at the latest, and no timeout check before the last one fired. */
  lemma {:induction false} WaitEndsInTime(remaining: seq<TxId>, sweep: nat, lookup: (nat, TxId) -> Lookup,
                                          elapsed: nat -> nat)
    requires 1 <= sweep <= MaxSweeps && SleepsElapse(elapsed)
    ensures var n := WaitFrom(remaining, sweep, lookup, elapsed).1;
            sweep <= n <= MaxSweeps && forall s :: sweep <= s < n ==> elapsed(s) <= TimeoutNanos
    decreases MaxSweeps - sweep
  {
    var r := SweepSpec(remaining, remaining, 0, sweep, lookup);
    if r.Swept? && |r.pending| != 0 && elapsed(sweep) <= TimeoutNanos {
      WaitContinues(remaining, sweep, lookup, elapsed);
      WaitEndsInTime(r.pending, sweep + 1, lookup, elapsed);
    }
  }

  lemma NeverFoundFirst(lookup: (nat, TxId) -> Lookup, x: TxId, from: nat, to: nat)
    requires from <= to
    ensures NeverFound(lookup, x, from, to) <==> !lookup(from, x).Found? && NeverFound(lookup, x, from + 1, to)
  {
  }

  /**
   * A timed-out wait leaves a non-empty sub-sequence of the pending list: exactly the ids no sweep
   * found; and the clock read past the timeout.
   */
  lemma {:induction false} WaitTimedOut(remaining: seq<TxId>, sweep: nat, lookup: (nat, TxId) -> Lookup,
                                        elapsed: nat -> nat)
    requires 1 <= sweep <= MaxSweeps && SleepsElapse(elapsed)
    requires WaitFrom(remaining, sweep, lookup, elapsed).0.TimedOut?
    ensures var (outcome, n) := WaitFrom(remaining, sweep, lookup, elapsed);
            |outcome.remaining| > 0 && elapsed(n) > TimeoutNanos &&
            IsSubsequence(outcome.remaining, remaining) &&
            forall x :: x in outcome.remaining <==> x in remaining && NeverFound(lookup, x, sweep, n)
    decreases MaxSweeps - sweep
  {
    var r := SweepSpec(remaining, remaining, 0, sweep, lookup);
    SweepOnce(remaining, sweep, lookup);
    var (outcome, n) := WaitFrom(remaining, sweep, lookup, elapsed);
    WaitEndsInTime(remaining, sweep, lookup, elapsed);
    if elapsed(sweep) <= TimeoutNanos {
      WaitContinues(remaining, sweep, lookup, elapsed);
      WaitTimedOut(r.pending, sweep + 1, lookup, elapsed);
      SubsequenceTransitive(outcome.remaining, r.pending, remaining);
      forall x
        ensures x in outcome.remaining <==> x in remaining && NeverFound(lookup, x, sweep, n)
      {
        NeverFoundFirst(lookup, x, sweep, n);
      }
    } else {
      forall x
        ensures x in outcome.remaining <==> x in remaining && NeverFound(lookup, x, sweep, n)
      {
        NeverFoundFirst(lookup, x, sweep, n);
      }
    }
  }

  /** When the wait ends with nothing pending, every requested id was found by some sweep. */
  lemma {:induction false} WaitAllConfirmed(remaining: seq<TxId>, sweep: nat, lookup: (nat, TxId) -> Lookup,
                                            elapsed: nat -> nat)
    requires 1 <= sweep <= MaxSweeps && SleepsElapse(elapsed)
    requires WaitFrom(remaining, sweep, lookup, elapsed).0.AllConfirmed?
    ensures var n := WaitFrom(remaining, sweep, lookup, elapsed).1;
            forall x :: x in remaining ==> FoundIn(lookup, x, sweep, n)
    decreases MaxSweeps - sweep
  {
    var r := SweepSpec(remaining, remaining, 0, sweep, lookup);
    SweepOnce(remaining, sweep, lookup);
    var n := WaitFrom(remaining, sweep, lookup, elapsed).1;
    WaitEndsInTime(remaining, sweep, lookup, elapsed);
    if |r.pending| != 0 {
      WaitContinues(remaining, sweep, lookup, elapsed);
      WaitAllConfirmed(r.pending, sweep + 1, lookup, elapsed);
    }
    forall x | x in remaining
      ensures FoundIn(lookup, x, sweep, n)
    {
      if x !in r.pending {
        assert lookup(sweep, x) == Found(Transaction(x));
      }
    }
  }

  /** An aborted wait asked for a pending id and got back a transaction with another id. */
  lemma {:induction false} WaitAborted(remaining: seq<TxId>, sweep: nat, lookup: (nat, TxId) -> Lookup,
                                       elapsed: nat -> nat)
    requires 1 <= sweep <= MaxSweeps && SleepsElapse(elapsed)
    requires WaitFrom(remaining, sweep, lookup, elapsed).0.Aborted?
    ensures var (outcome, n) := WaitFrom(remaining, sweep, lookup, elapsed);
            outcome.requested in remaining && outcome.returned != outcome.requested &&
            lookup(n, outcome.requested) == Found(Transaction(outcome.returned))
    decreases MaxSweeps - sweep
  {
    var r := SweepSpec(remaining, remaining, 0, sweep, lookup);
    SweepOnce(remaining, sweep, lookup);
    if r.Swept? {
      WaitContinues(remaining, sweep, lookup, elapsed);
      WaitAborted(r.pending, sweep + 1, lookup, elapsed);
      SubsequenceMembers(r.pending, remaining);
    }
  }

  lemma EmptyWithoutMembers(s: seq<TxId>)
    ensures (forall x :: x !in s) ==> s == []
  {
    if s != [] {
      assert s[0] in s;
    }
  }

  /** If the first sweep finds every id, the wait ends after that sweep, without sleeping. */
  lemma WaitFirstSweepFindsAll(txIds: seq<TxId>, lookup: (nat, TxId) -> Lookup, elapsed: nat -> nat)
    requires SleepsElapse(elapsed)
    requires forall x :: x in txIds ==> lookup(1, x) == Found(Transaction(x))
    ensures WaitFrom(txIds, 1, lookup, elapsed) == (AllConfirmed, 1)
  {
    SweepOnce(txIds, 1, lookup);
    var r := SweepSpec(txIds, txIds, 0, 1, lookup);
    assert r.Swept?;
    EmptyWithoutMembers(r.pending);
  }

  /**
   * `wait_for_txs_confirmation`. `network` is the oracle address's network, which the source reads
   * from the global configuration; `query(url)` answers the requests sent to the explorer at `url`.
   */
  method WaitForTxsConfirmation(network: NetworkPrefix, txIds: seq<TxId>,
                                query: string -> (nat, TxId) -> Lookup, elapsed: nat -> nat)
    returns (outcome: WaitOutcome, sweeps: nat)
    requires SleepsElapse(elapsed)
    ensures (outcome, sweeps) == WaitFrom(txIds, 1, query(ExplorerUrl(network)), elapsed)
    ensures 1 <= sweeps <= MaxSweeps
    ensures outcome.AllConfirmed? ==> forall x :: x in txIds ==> FoundIn(query(ExplorerUrl(network)), x, 1, sweeps)
    ensures outcome.TimedOut? ==>
              |outcome.remaining| > 0 && IsSubsequence(outcome.remaining, txIds) && elapsed(sweeps) > TimeoutNanos
    ensures outcome.Aborted? ==>
              outcome.requested in txIds && outcome.returned != outcome.requested
  {
    var lookup := query(ExplorerUrl(network));
    WaitEndsInTime(txIds, 1, lookup, elapsed);
    ghost var expected := WaitFrom(txIds, 1, lookup, elapsed).0;
    if expected.AllConfirmed? {
      WaitAllConfirmed(txIds, 1, lookup, elapsed);
    } else if expected.TimedOut? {
      WaitTimedOut(txIds, 1, lookup, elapsed);
    } else {
      WaitAborted(txIds, 1, lookup, elapsed);
    }
    var remainingTxs := txIds;
    sweeps := 1;
    while true
      invariant 1 <= sweeps <= MaxSweeps
      invariant WaitFrom(remainingTxs, sweeps, lookup, elapsed) == WaitFrom(txIds, 1, lookup, elapsed)
      decreases MaxSweeps - sweeps
    {
      var r := Sweep(remainingTxs, sweeps, lookup);
      if r.Mismatch? {
        return Aborted(r.requested, r.returned), sweeps;
      }
      remainingTxs := r.pending;
      if |remainingTxs| == 0 {
        return AllConfirmed, sweeps;
      }
      if elapsed(sweeps) > TimeoutNanos {
        return TimedOut(remainingTxs), sweeps;
      }
      // std::thread::sleep(10 s)
      assert elapsed(sweeps) >= (sweeps - 1) * SleepNanos;
      sweeps := sweeps + 1;
    }
  }

  /** `wait_for_tx_confirmation`: the wait for a single id. */
  method WaitForTxConfirmation(network: NetworkPrefix, txId: TxId,
                               query: string -> (nat, TxId) -> Lookup, elapsed: nat -> nat)
    returns (outcome: WaitOutcome, sweeps: nat)
    requires SleepsElapse(elapsed)
    ensures (outcome, sweeps) == WaitFrom([txId], 1, query(ExplorerUrl(network)), elapsed)
    ensures outcome.AllConfirmed? ==> FoundIn(query(ExplorerUrl(network)), txId, 1, sweeps)
    ensures outcome.TimedOut? ==> outcome.remaining == [txId]
  {
    outcome, sweeps := WaitForTxsConfirmation(network, [txId], query, elapsed);
    if outcome.TimedOut? {
      SubsequenceMembers(outcome.remaining, [txId]);
      SingletonSubsequence(outcome.remaining, txId);
    }
  }

  lemma SingletonSubsequence(a: seq<TxId>, x: TxId)
    requires |a| > 0 && IsSubsequence(a, [x])
    ensures a == [x]
  {
    assert [x][1..] == [];
  }
}
