/** The loop that repeats an operation on the components that asked for a reboot, until none does. */
module OperationLoop {
  import opened Prelude
  import opened ComponentOperations

  // ---------------------------------------------------------------- what a component goes through

  function ModuleAt<M>(e0: Entry<M>, history: seq<Call<M>>, k: nat): M
    requires e0.component.Some? && k <= |history|
  {
    if k == 0 then e0.component.value.updateModule else history[k - 1].answer.next
  }

  /** The operation and the reboot in turn, each in the state the call before it left; a reboot only on request. */
  ghost predicate Link<M>(calls: Calls<M>, id: string, e0: Entry<M>, history: seq<Call<M>>, k: nat)
    requires e0.component.Some? && k < |history|
  {
    var call := history[k];
    && call.action == (if k % 2 == 0 then Operate else Reboot)
    && call.before == ModuleAt(e0, history, k)
    && call.answer == Invoke(calls, call.action, id, e0.status.version, k, call.before)
    && (k % 2 == 1 ==> history[k - 1].answer.result == RebootRequired)
  }

  /** e is what e0 has become through the calls its history tells. */
  ghost predicate Reached<M>(calls: Calls<M>, id: string, e0: Entry<M>, e: Entry<M>)
    requires e0.component.Some?
  {
    && (forall k: nat :: k < |e.history| ==> Link(calls, id, e0, e.history, k))
    && e.component == Some(e0.component.value.(updateModule := ModuleAt(e0, e.history, |e.history|)))
    && e.status == (if CallFailed(e) then WithError(e0.status, LastError(e.history)) else e0.status)
    && e.stored == if CallStored(e) then Some(e0.status.version) else e0.stored
  }

  /** The error of the last call that failed. */
  function LastError<M>(history: seq<Call<M>>): Error {
    if history == [] then ""
    else
      match history[|history| - 1].answer.result
      case Failed(err) => err
      case _ => LastError(history[..|history| - 1])
  }

  /** The last call was the operation, and it asked for no reboot. */
  predicate Complete<M>(e: Entry<M>) {
    |e.history| % 2 == 1 && Last(e) != RebootRequired
  }

  ghost predicate CallFailed<M>(e: Entry<M>) {
    exists k :: 0 <= k < |e.history| && e.history[k].answer.result.Failed?
  }

  ghost predicate CallStored<M>(e: Entry<M>) {
    exists k :: 0 <= k < |e.history| && e.history[k].answer.stores
  }

  ghost predicate SomeCallFailed<M>(entries: map<string, Entry<M>>) {
    exists id :: Configured(entries, id) && CallFailed(entries[id])
  }

  ghost predicate AllReached<M>(calls: Calls<M>, entries: map<string, Entry<M>>, entries': map<string, Entry<M>>) {
    && entries'.Keys == entries.Keys
    && forall id :: id in entries ==>
         if Missing(entries, id) then entries'[id] == Marked(entries[id])
         else Reached(calls, id, entries[id], entries'[id])
  }

  ghost predicate AnyMissing<M>(entries: map<string, Entry<M>>) {
    exists id :: Missing(entries, id)
  }

  /** The outcome of the whole loop. */
  ghost predicate Outcome<M(!new)>(calls: Calls<M>, stopOnError: bool, entries: map<string, Entry<M>>,
                                   entries': map<string, Entry<M>>, err: Option<Error>)
  {
    if stopOnError && AnyMissing(entries) then
      && err.Some? && exists id :: Missing(entries, id) && entries' == entries[id := Marked(entries[id])]
    else
      && AllReached(calls, entries, entries')
      && (err.Some? <==> SomeCallFailed(entries'))
      && (err.Some? ==> Told(stopOnError, entries, entries', err.value))
      && (!stopOnError || err.None? ==> forall id :: Configured(entries, id) ==> Complete(entries'[id]))
  }

  /** The first call of a component is an operation, the next one a reboot, and so on. */
  function ActionAt(k: nat): Action {
    if k % 2 == 0 then Operate else Reboot
  }

  ghost predicate FailedAt<M>(entries: map<string, Entry<M>>, id: string, k: nat) {
    id in entries && k < |entries[id].history| && entries[id].history[k].answer.result.Failed?
  }

  /** The error told is that of call k of the component first: no call failed in an earlier round, and in that round
      none of a component of a higher priority. */
  ghost predicate Tells<M>(entries: map<string, Entry<M>>, entries': map<string, Entry<M>>, err: Error, first: string,
                           k: nat)
  {
    && Configured(entries, first) && FailedAt(entries', first, k)
    && entries'[first].history[k].answer.result == Failed(err)
    && forall id, m: nat :: Configured(entries, id) && FailedAt(entries', id, m) ==>
         m > k || (m == k && Priority(ActionAt(k), entries, id) <= Priority(ActionAt(k), entries, first))
  }

  /** Errors stop the loop in that round, below the priority of that component: what was to be called and is of a lower
      priority is left out, everything else has been called or was complete before. */
  ghost predicate Halted<M>(entries: map<string, Entry<M>>, entries': map<string, Entry<M>>, first: string, k: nat) {
    forall id :: Configured(entries, id) && id in entries' ==>
      HaltedAt(|entries'[id].history|, Complete(entries'[id]), Priority(ActionAt(k), entries, id),
               Priority(ActionAt(k), entries, first), k)
  }

  /** So many calls have been made for a component of the given priority when calls of a lower one than p are left out
      in round k. */
  predicate HaltedAt(made: nat, complete: bool, priority: nat, p: nat, k: nat) {
    && made <= k + 1
    && (made == k + 1 ==> priority >= p)
    && (made < k + 1 && !complete ==> made == k && priority < p)
  }

  ghost predicate Told<M>(stopOnError: bool, entries: map<string, Entry<M>>, entries': map<string, Entry<M>>,
                          err: Error) {
    exists first, k: nat ::
      Tells(entries, entries', err, first, k) && (stopOnError ==> Halted(entries, entries', first, k))
  }

  // ---------------------------------------------------------------- reboot requests come to an end

  /** Every request for a reboot lowers a module's rank, and rebooting neither raises it nor asks for another. */
  ghost predicate RanksDrop<M(!new)>(calls: Calls<M>, rank: M -> nat) {
    && (forall id, status, n, m :: calls.operate(id, status, n, m).result == RebootRequired ==>
          rank(calls.operate(id, status, n, m).next) < rank(m))
    && (forall m :: rank(calls.reboot(m).next) <= rank(m))
  }

  // ---------------------------------------------------------------- the loop

  /** Between rounds: the pending components have been operated on and rebooted in every round so far, the others
      are complete. */
  ghost predicate Between<M(!new)>(calls: Calls<M>, stopOnError: bool, entries: map<string, Entry<M>>,
                                   now: map<string, Entry<M>>, pending: seq<string>, round: nat, err: Option<Error>)
  {
    && DistinctIds(pending) && (forall id :: id in pending ==> id in entries)
    && (forall id :: id in entries ==> entries[id].history == [])
    && (if round == 0 then now == entries && err.None? && forall id :: id in entries ==> id in pending
        else
          && AllReached(calls, entries, now)
          && (forall id :: id in pending ==> Configured(entries, id) && |now[id].history| == 2 * round)
          && (forall id :: Configured(entries, id) && id !in pending ==>
                Complete(now[id]) && |now[id].history| < 2 * round)
          && (err.Some? <==> SomeCallFailed(now)) && (err.Some? ==> Told(stopOnError, entries, now, err.value)))
  }

  /** After the operation of a round: those to be rebooted asked for it, the others are complete or, with
      stopOnError, were left out because of an error. */
  ghost predicate Operated<M(!new)>(calls: Calls<M>, stopOnError: bool, entries: map<string, Entry<M>>,
                                    now: map<string, Entry<M>>, reboots: seq<string>, round: nat, err: Option<Error>)
  {
    && DistinctIds(reboots)
    && (forall id :: id in entries ==> entries[id].history == [])
    && AllReached(calls, entries, now)
    && (forall id :: id in reboots ==>
          Configured(entries, id) && |now[id].history| == 2 * round + 1 && Last(now[id]) == RebootRequired)
    && (!stopOnError || err.None? ==> forall id :: Configured(entries, id) && id !in reboots ==> Complete(now[id]))
    && (forall id :: Configured(entries, id) ==> |now[id].history| <= 2 * round + 1)
    && (err.Some? <==> SomeCallFailed(now)) && (err.Some? ==> Told(stopOnError, entries, now, err.value))
  }

  function FirstError(earlier: Option<Error>, later: Option<Error>): Option<Error> {
    if earlier.Some? then earlier else later
  }

  /** What a round finds: its components have been called so many times before, the others are complete. */
  ghost predicate InRound<M>(entries: map<string, Entry<M>>, now: map<string, Entry<M>>, ids: seq<string>, n: nat) {
    && now.Keys == entries.Keys
    && (forall id :: Configured(entries, id) <==> Configured(now, id))
    && (forall id :: Configured(entries, id) ==>
          && now[id].component.value.updatePriority == entries[id].component.value.updatePriority
          && now[id].component.value.rebootPriority == entries[id].component.value.rebootPriority)
    && (forall id :: Configured(entries, id) ==>
          if id in ids then |now[id].history| == n else |now[id].history| <= n && Complete(now[id]))
  }

  /** A round adds one call to the history of each component called and nothing to the others'. */
  lemma HistoryGrows<M(!new)>(calls: Calls<M>, action: Action, ids: seq<string>, stopOnError: bool,
                              entries: map<string, Entry<M>>, now: map<string, Entry<M>>, now': map<string, Entry<M>>,
                              order: seq<string>, reboots: seq<string>, err: Option<Error>, n: nat, id: string)
    requires Made(calls, action, ids, stopOnError, now, now', order, reboots, err) && InRound(entries, now, ids, n)
    requires Configured(entries, id)
    ensures id in now' && now[id].history <= now'[id].history
    ensures |now'[id].history| == |now[id].history| + if id in order then 1 else 0
    ensures id in order ==> |now'[id].history| == n + 1 && ResultOf(now', id) == now'[id].history[n].answer.result
    ensures id !in order ==> now'[id] == now[id]
  {
    hide MadeError, InTurn;
  }

  lemma FailuresAt<M(!new)>(calls: Calls<M>, action: Action, ids: seq<string>, stopOnError: bool,
                            entries: map<string, Entry<M>>, now: map<string, Entry<M>>, now': map<string, Entry<M>>,
                            order: seq<string>, reboots: seq<string>, err: Option<Error>, n: nat, id: string, m: nat)
    requires Made(calls, action, ids, stopOnError, now, now', order, reboots, err) && InRound(entries, now, ids, n)
    requires Configured(entries, id)
    ensures FailedAt(now', id, m) <==> FailedAt(now, id, m) || (id in order && m == n && ResultOf(now', id).Failed?)
  {
    HistoryGrows(calls, action, ids, stopOnError, entries, now, now', order, reboots, err, n, id);
    hide Made, InRound;
    if m < |now[id].history| { assert now'[id].history[m] == now[id].history[m]; }
  }

  lemma FailuresAdd<M(!new)>(calls: Calls<M>, action: Action, ids: seq<string>, stopOnError: bool,
                             entries: map<string, Entry<M>>, now: map<string, Entry<M>>, now': map<string, Entry<M>>,
                             order: seq<string>, reboots: seq<string>, err: Option<Error>, n: nat)
    requires Made(calls, action, ids, stopOnError, now, now', order, reboots, err) && InRound(entries, now, ids, n)
    ensures SomeCallFailed(now') <==> SomeCallFailed(now) || err.Some?
  {
    hide InRound, InTurn, Perform;
    SameConfigured(calls, action, ids, stopOnError, entries, now, now', order, reboots, err, n);
    forall id | Configured(entries, id)
      ensures CallFailed(now'[id]) <==> CallFailed(now[id]) || (id in order && ResultOf(now', id).Failed?)
    {
      HistoryGrows(calls, action, ids, stopOnError, entries, now, now', order, reboots, err, n, id);
      SomeFailure(now, id);
      SomeFailure(now', id);
    }
  }

  lemma SomeFailure<M(!new)>(entries: map<string, Entry<M>>, id: string)
    requires id in entries
    ensures CallFailed(entries[id]) <==> exists m: nat :: FailedAt(entries, id, m)
  {
    if k :| 0 <= k < |entries[id].history| && entries[id].history[k].answer.result.Failed? {
      assert FailedAt(entries, id, k);
    }
  }

  lemma SameConfigured<M(!new)>(calls: Calls<M>, action: Action, ids: seq<string>, stopOnError: bool,
                                entries: map<string, Entry<M>>, now: map<string, Entry<M>>, now': map<string, Entry<M>>,
                                order: seq<string>, reboots: seq<string>, err: Option<Error>, n: nat)
    requires Made(calls, action, ids, stopOnError, now, now', order, reboots, err) && InRound(entries, now, ids, n)
    ensures forall id :: Configured(entries, id) <==> Configured(now', id)
    ensures forall id :: Configured(entries, id) <==> Configured(now, id)
    ensures err.Some? <==> exists id :: id in order && ResultOf(now', id).Failed?
    ensures forall id :: id in order ==> Configured(entries, id)
  {
    hide InTurn, ResultOf;
  }

  /** An error told before the round is still the first. */
  lemma StillTold<M(!new)>(calls: Calls<M>, action: Action, ids: seq<string>, entries: map<string, Entry<M>>,
                           now: map<string, Entry<M>>, now': map<string, Entry<M>>, order: seq<string>,
                           reboots: seq<string>, err: Option<Error>, n: nat, told: Error)
    requires Made(calls, action, ids, false, now, now', order, reboots, err) && InRound(entries, now, ids, n)
    requires Told(false, entries, now, told)
    ensures Told(false, entries, now', told)
  {
    var first, k: nat :| Tells(entries, now, told, first, k);
    hide Made, InRound, Priority;
    FailuresAt(calls, action, ids, false, entries, now, now', order, reboots, err, n, first, k);
    HistoryGrows(calls, action, ids, false, entries, now, now', order, reboots, err, n, first);
    assert now'[first].history[k] == now[first].history[k] && k < n by {
      BeforeRound(entries, now, ids, n, first);
    }
    forall id, m: nat | Configured(entries, id) && FailedAt(now', id, m)
      ensures m > k || (m == k && Priority(ActionAt(k), entries, id) <= Priority(ActionAt(k), entries, first))
    {
      FailuresAt(calls, action, ids, false, entries, now, now', order, reboots, err, n, id, m);
    }
    assert Tells(entries, now', told, first, k);
  }

  lemma BeforeRound<M(!new)>(entries: map<string, Entry<M>>, now: map<string, Entry<M>>, ids: seq<string>, n: nat,
                             id: string)
    requires InRound(entries, now, ids, n) && Configured(entries, id)
    ensures |now[id].history| <= n
  {
  }

  /** The first error of the loop comes from the round just made. */
  lemma NowTold<M(!new)>(calls: Calls<M>, ids: seq<string>, stopOnError: bool, entries: map<string, Entry<M>>,
                         now: map<string, Entry<M>>, now': map<string, Entry<M>>, order: seq<string>,
                         reboots: seq<string>, err: Option<Error>, n: nat)
    requires Made(calls, ActionAt(n), ids, stopOnError, now, now', order, reboots, err) && InRound(entries, now, ids, n)
    requires !SomeCallFailed(now) && err.Some?
    ensures Told(stopOnError, entries, now', err.value)
  {
    hide InRound, InTurn, MadeCalls, FromHighest, DownTo, SomeCallFailed, Tells, Halted;
    var first :| FromHighest(ActionAt(n), now, now', order, err.value, first)
                 && (stopOnError ==> DownTo(ActionAt(n), ids, now, order, Priority(ActionAt(n), now, first)));
    NowTells(calls, ids, stopOnError, entries, now, now', order, reboots, err, n, first);
    if stopOnError { NowHalts(calls, ids, entries, now, now', order, reboots, err, n, first); }
  }

  lemma NowTells<M(!new)>(calls: Calls<M>, ids: seq<string>, stopOnError: bool, entries: map<string, Entry<M>>,
                          now: map<string, Entry<M>>, now': map<string, Entry<M>>, order: seq<string>,
                          reboots: seq<string>, err: Option<Error>, n: nat, first: string)
    requires Made(calls, ActionAt(n), ids, stopOnError, now, now', order, reboots, err) && InRound(entries, now, ids, n)
    requires !SomeCallFailed(now) && err.Some? && FromHighest(ActionAt(n), now, now', order, err.value, first)
    ensures Tells(entries, now', err.value, first, n)
  {
    SameConfigured(calls, ActionAt(n), ids, stopOnError, entries, now, now', order, reboots, err, n);
    SamePriorities(entries, now, ids, n);
    HistoryGrows(calls, ActionAt(n), ids, stopOnError, entries, now, now', order, reboots, err, n, first);
    hide Made, InRound, Priority, SomeCallFailed;
    forall id, m: nat | Configured(entries, id) && FailedAt(now', id, m)
      ensures m == n && Priority(ActionAt(n), entries, id) <= Priority(ActionAt(n), entries, first)
    {
      FailuresAt(calls, ActionAt(n), ids, stopOnError, entries, now, now', order, reboots, err, n, id, m);
      NotFailedBefore(now, id, m);
    }
  }

  lemma NowHalts<M(!new)>(calls: Calls<M>, ids: seq<string>, entries: map<string, Entry<M>>, now: map<string, Entry<M>>,
                          now': map<string, Entry<M>>, order: seq<string>, reboots: seq<string>, err: Option<Error>,
                          n: nat, first: string)
    requires Made(calls, ActionAt(n), ids, true, now, now', order, reboots, err) && InRound(entries, now, ids, n)
    requires DownTo(ActionAt(n), ids, now, order, Priority(ActionAt(n), now, first))
    ensures Halted(entries, now', first, n)
  {
    SameConfigured(calls, ActionAt(n), ids, true, entries, now, now', order, reboots, err, n);
    SamePriorities(entries, now, ids, n);
    hide Made, InRound, Priority, Complete;
    forall id | Configured(entries, id) && id in now'
      ensures HaltedAt(|now'[id].history|, Complete(now'[id]), Priority(ActionAt(n), entries, id),
                       Priority(ActionAt(n), entries, first), n)
    {
      HistoryGrows(calls, ActionAt(n), ids, true, entries, now, now', order, reboots, err, n, id);
      LeftOut(calls, ids, true, entries, now, now', order, reboots, err, n, id);
    }
  }

  lemma LeftOut<M(!new)>(calls: Calls<M>, ids: seq<string>, stopOnError: bool, entries: map<string, Entry<M>>,
                         now: map<string, Entry<M>>, now': map<string, Entry<M>>, order: seq<string>,
                         reboots: seq<string>, err: Option<Error>, n: nat, id: string)
    requires Made(calls, ActionAt(n), ids, stopOnError, now, now', order, reboots, err) && InRound(entries, now, ids, n)
    requires Configured(entries, id)
    ensures |now[id].history| <= n && (id in order ==> id in ids)
    ensures id !in ids ==> Complete(now[id])
    ensures id in ids ==> |now[id].history| == n
    ensures id in order ==> |now[id].history| == n
  {
    hide InTurn, MadeError, Complete;
  }

  lemma SamePriorities<M(!new)>(entries: map<string, Entry<M>>, now: map<string, Entry<M>>, ids: seq<string>, n: nat)
    requires InRound(entries, now, ids, n)
    ensures forall action, id :: Priority(action, now, id) == Priority(action, entries, id)
  {
  }

  lemma NotFailedBefore<M(!new)>(entries: map<string, Entry<M>>, id: string, m: nat)
    requires !SomeCallFailed(entries) && Configured(entries, id)
    ensures !FailedAt(entries, id, m)
  {
  }

  /** The error of the loop after a round. */
  lemma ErrorAfter<M(!new)>(calls: Calls<M>, ids: seq<string>, stopOnError: bool, entries: map<string, Entry<M>>,
                            now: map<string, Entry<M>>, now': map<string, Entry<M>>, order: seq<string>,
                            reboots: seq<string>, earlier: Option<Error>, err: Option<Error>, n: nat)
    requires Made(calls, ActionAt(n), ids, stopOnError, now, now', order, reboots, err) && InRound(entries, now, ids, n)
    requires (earlier.Some? <==> SomeCallFailed(now)) && (stopOnError ==> earlier.None?)
    requires earlier.Some? ==> Told(stopOnError, entries, now, earlier.value)
    ensures FirstError(earlier, err).Some? <==> SomeCallFailed(now')
    ensures FirstError(earlier, err).Some? ==> Told(stopOnError, entries, now', FirstError(earlier, err).value)
  {
    FailuresAdd(calls, ActionAt(n), ids, stopOnError, entries, now, now', order, reboots, err, n);
    hide Made, InRound, Told;
    if earlier.Some? {
      StillTold(calls, ActionAt(n), ids, entries, now, now', order, reboots, err, n, earlier.value);
    } else if err.Some? {
      NowTold(calls, ids, stopOnError, entries, now, now', order, reboots, err, n);
    }
  }

  lemma OneMoreCall<M(!new)>(calls: Calls<M>, action: Action, id: string, e0: Entry<M>, e: Entry<M>)
    requires e0.component.Some? && Reached(calls, id, e0, e)
    requires if action == Operate then |e.history| % 2 == 0 else |e.history| % 2 == 1 && Last(e) == RebootRequired
    ensures Reached(calls, id, e0, Perform(calls, action, id, e))
  {
    var e', n := Perform(calls, action, id, e), |e.history|;
    assert e'.history[n] == Call(action, e.component.value.updateModule, e'.history[n].answer);
    forall k: nat | k < n ensures Link(calls, id, e0, e'.history, k) {
      assert Link(calls, id, e0, e.history, k);
      assert k > 0 ==> e'.history[k - 1] == e.history[k - 1];
    }
    assert Link(calls, id, e0, e'.history, n);
    assert forall k :: 0 <= k < n ==> e'.history[k] == e.history[k];
  }

  lemma EntryAfterOperation<M(!new)>(calls: Calls<M>, id: string, e0: Entry<M>, e: Entry<M>, round: nat)
    requires e0.component.Some? && Reached(calls, id, e0, e) && |e.history| == 2 * round
    ensures var e' := Perform(calls, Operate, id, e);
      Reached(calls, id, e0, e') && |e'.history| == 2 * round + 1 && (Complete(e') || Last(e') == RebootRequired)
  {
    OneMoreCall(calls, Operate, id, e0, e);
  }

  lemma EntryAfterReboot<M(!new)>(calls: Calls<M>, id: string, e0: Entry<M>, e: Entry<M>, round: nat)
    requires e0.component.Some? && Reached(calls, id, e0, e) && |e.history| == 2 * round + 1 &&
             Last(e) == RebootRequired
    ensures var e' := Perform(calls, Reboot, id, e);
      Reached(calls, id, e0, e') && |e'.history| == 2 * round + 2
  {
    OneMoreCall(calls, Reboot, id, e0, e);
  }

  lemma BetweenReady<M(!new)>(calls: Calls<M>, stopOnError: bool, entries: map<string, Entry<M>>,
                              now: map<string, Entry<M>>, pending: seq<string>, round: nat, err: Option<Error>)
    requires Between(calls, stopOnError, entries, now, pending, round, err)
    ensures InRound(entries, now, pending, 2 * round)
    ensures err.Some? <==> SomeCallFailed(now)
    ensures err.Some? ==> Told(stopOnError, entries, now, err.value)
    ensures forall id :: id in entries ==> entries[id].history == []
  {
    hide Told, Link, CallFailed, CallStored, SomeCallFailed;
    if round == 0 { NoFailureYet(entries); }
  }

  lemma OperatedReady<M(!new)>(calls: Calls<M>, stopOnError: bool, entries: map<string, Entry<M>>,
                               now: map<string, Entry<M>>, reboots: seq<string>, round: nat, err: Option<Error>)
    requires Operated(calls, stopOnError, entries, now, reboots, round, err) && (stopOnError ==> err.None?)
    ensures InRound(entries, now, reboots, 2 * round + 1)
    ensures err.Some? <==> SomeCallFailed(now)
    ensures err.Some? ==> Told(stopOnError, entries, now, err.value)
  {
    hide Told, Link, CallFailed, CallStored, SomeCallFailed;
  }

  lemma OperationReachesOne<M(!new)>(calls: Calls<M>, stopOnError: bool, entries: map<string, Entry<M>>,
                                     now: map<string, Entry<M>>, pending: seq<string>, round: nat, err: Option<Error>,
                                     now': map<string, Entry<M>>, order: seq<string>, reboots: seq<string>,
                                     opErr: Option<Error>, id: string)
    requires Between(calls, stopOnError, entries, now, pending, round, err) && Configured(entries, id)
    requires Made(calls, Operate, pending, stopOnError, now, now', order, reboots, opErr)
    ensures id in now' && Reached(calls, id, entries[id], now'[id]) && |now'[id].history| <= 2 * round + 1
    ensures id in reboots ==> |now'[id].history| == 2 * round + 1 && Last(now'[id]) == RebootRequired
    ensures !stopOnError || opErr.None? ==> id in reboots || Complete(now'[id])
  {
    hide InTurn, Told, SomeCallFailed;
    assert Reached(calls, id, entries[id], now[id]);
    if id in pending {
      EntryAfterOperation(calls, id, entries[id], now[id], round);
    }
  }

  lemma OperationReaches<M(!new)>(calls: Calls<M>, stopOnError: bool, entries: map<string, Entry<M>>,
                                  now: map<string, Entry<M>>, pending: seq<string>, round: nat, err: Option<Error>,
                                  now': map<string, Entry<M>>, order: seq<string>, reboots: seq<string>,
                                  opErr: Option<Error>)
    requires Between(calls, stopOnError, entries, now, pending, round, err)
    requires Made(calls, Operate, pending, stopOnError, now, now', order, reboots, opErr)
    ensures AllReached(calls, entries, now') && DistinctIds(reboots)
    ensures forall id :: id in reboots ==>
              Configured(entries, id) && |now'[id].history| == 2 * round + 1 && Last(now'[id]) == RebootRequired
    ensures forall id :: Configured(entries, id) ==> |now'[id].history| <= 2 * round + 1
    ensures !stopOnError || opErr.None? ==> forall id :: Configured(entries, id) && id !in reboots ==>
            Complete(now'[id])
  {
    hide Reached, Complete, Perform, Told, InTurn, MadeError, ResultOf, SomeCallFailed;
    forall id | Configured(entries, id)
      ensures Reached(calls, id, entries[id], now'[id]) && |now'[id].history| <= 2 * round + 1
      ensures id in reboots ==> |now'[id].history| == 2 * round + 1 && Last(now'[id]) == RebootRequired
      ensures !stopOnError || opErr.None? ==> id in reboots || Complete(now'[id])
    {
      OperationReachesOne(calls, stopOnError, entries, now, pending, round, err, now', order, reboots, opErr, id);
    }
  }

  lemma AfterOperation<M(!new)>(calls: Calls<M>, stopOnError: bool, entries: map<string, Entry<M>>,
                                now: map<string, Entry<M>>, pending: seq<string>, round: nat, err: Option<Error>,
                                now': map<string, Entry<M>>, order: seq<string>, reboots: seq<string>,
                                opErr: Option<Error>)
    requires Between(calls, stopOnError, entries, now, pending, round, err) && (stopOnError ==> err.None?)
    requires Made(calls, Operate, pending, stopOnError, now, now', order, reboots, opErr)
    ensures Operated(calls, stopOnError, entries, now', reboots, round, FirstError(err, opErr))
  {
    hide Made, Told, SomeCallFailed, InRound, AllReached, Complete, Between, Operated;
    BetweenReady(calls, stopOnError, entries, now, pending, round, err);
    OperationReaches(calls, stopOnError, entries, now, pending, round, err, now', order, reboots, opErr);
    ErrorAfter(calls, pending, stopOnError, entries, now, now', order, reboots, err, opErr, 2 * round);
    OperatedTogether(calls, stopOnError, entries, now', reboots, round, FirstError(err, opErr));
  }

  lemma OperatedTogether<M(!new)>(calls: Calls<M>, stopOnError: bool, entries: map<string, Entry<M>>,
                                  now: map<string, Entry<M>>, reboots: seq<string>, round: nat, err: Option<Error>)
    requires DistinctIds(reboots) && AllReached(calls, entries, now)
    requires forall id :: id in entries ==> entries[id].history == []
    requires forall id :: id in reboots ==>
               Configured(entries, id) && |now[id].history| == 2 * round + 1 && Last(now[id]) == RebootRequired
    requires !stopOnError || err.None? ==> forall id :: Configured(entries, id) && id !in reboots ==> Complete(now[id])
    requires forall id :: Configured(entries, id) ==> |now[id].history| <= 2 * round + 1
    requires (err.Some? <==> SomeCallFailed(now)) && (err.Some? ==> Told(stopOnError, entries, now, err.value))
    ensures Operated(calls, stopOnError, entries, now, reboots, round, err)
  {
    hide Reached, Told, SomeCallFailed, Complete;
  }

  lemma NoFailureYet<M(!new)>(entries: map<string, Entry<M>>)
    ensures (forall id :: id in entries ==> entries[id].history == []) ==> !SomeCallFailed(entries)
  {
  }

  lemma RebootReachesOne<M(!new)>(calls: Calls<M>, stopOnError: bool, entries: map<string, Entry<M>>,
                                  now: map<string, Entry<M>>, reboots: seq<string>, round: nat, err: Option<Error>,
                                  now': map<string, Entry<M>>, order: seq<string>, more: seq<string>,
                                  rebootErr: Option<Error>, id: string)
    requires Operated(calls, stopOnError, entries, now, reboots, round, err) && id in entries
    requires Made(calls, Reboot, reboots, stopOnError, now, now', order, more, rebootErr)
    ensures now'.Keys == entries.Keys
    ensures if Missing(entries, id) then now'[id] == Marked(entries[id]) else Reached(calls, id, entries[id], now'[id])
    ensures if id in reboots then !stopOnError || rebootErr.None? ==> |now'[id].history| == 2 * round + 2
            else now'[id] == now[id]
  {
    hide InTurn, Told, SomeCallFailed;
    if id in reboots {
      EntryAfterReboot(calls, id, entries[id], now[id], round);
    }
  }

  lemma RebootReaches<M(!new)>(calls: Calls<M>, stopOnError: bool, entries: map<string, Entry<M>>,
                               now: map<string, Entry<M>>, reboots: seq<string>, round: nat, err: Option<Error>,
                               now': map<string, Entry<M>>, order: seq<string>, more: seq<string>,
                               rebootErr: Option<Error>)
    requires Operated(calls, stopOnError, entries, now, reboots, round, err)
    requires Made(calls, Reboot, reboots, stopOnError, now, now', order, more, rebootErr)
    ensures AllReached(calls, entries, now')
    ensures forall id :: id in entries ==>
              if id in reboots then !stopOnError || rebootErr.None? ==> |now'[id].history| == 2 * round + 2
              else now'[id] == now[id]
  {
    forall id | id in entries
      ensures now'.Keys == entries.Keys
      ensures if Missing(entries, id) then now'[id] == Marked(entries[id])
              else Reached(calls, id, entries[id], now'[id])
      ensures if id in reboots then !stopOnError || rebootErr.None? ==> |now'[id].history| == 2 * round + 2
              else now'[id] == now[id]
    {
      hide *;
      RebootReachesOne(calls, stopOnError, entries, now, reboots, round, err, now', order, more, rebootErr, id);
    }
  }

  /** From after an operation to between rounds, when the reboots are done. */
  lemma NextRound<M(!new)>(calls: Calls<M>, stopOnError: bool, entries: map<string, Entry<M>>,
                           now: map<string, Entry<M>>, reboots: seq<string>, round: nat, err: Option<Error>,
                           now': map<string, Entry<M>>, err': Option<Error>)
    requires Operated(calls, stopOnError, entries, now, reboots, round, err) && (stopOnError ==> err.None?)
    requires AllReached(calls, entries, now') && (err'.Some? <==> SomeCallFailed(now'))
    requires err'.Some? ==> Told(stopOnError, entries, now', err'.value)
    requires forall id :: id in entries ==>
             if id in reboots then |now'[id].history| == 2 * round + 2 else now'[id] == now[id]
    ensures Between(calls, stopOnError, entries, now', reboots, round + 1, err')
  {
    hide Told, SomeCallFailed, AllReached;
  }

  lemma AfterReboot<M(!new)>(calls: Calls<M>, stopOnError: bool, entries: map<string, Entry<M>>,
                             now: map<string, Entry<M>>, reboots: seq<string>, round: nat, err: Option<Error>,
                             now': map<string, Entry<M>>, order: seq<string>, more: seq<string>,
                             rebootErr: Option<Error>)
    requires Operated(calls, stopOnError, entries, now, reboots, round, err) && (stopOnError ==> err.None?)
    requires Made(calls, Reboot, reboots, stopOnError, now, now', order, more, rebootErr)
    ensures AllReached(calls, entries, now')
    ensures FirstError(err, rebootErr).Some? <==> SomeCallFailed(now')
    ensures FirstError(err, rebootErr).Some? ==> Told(stopOnError, entries, now', FirstError(err, rebootErr).value)
    ensures !stopOnError || rebootErr.None? ==>
            Between(calls, stopOnError, entries, now', reboots, round + 1, FirstError(err, rebootErr))
  {
    hide Made, AllReached, SomeCallFailed, Between, Told, InRound;
    RebootReaches(calls, stopOnError, entries, now, reboots, round, err, now', order, more, rebootErr);
    OperatedReady(calls, stopOnError, entries, now, reboots, round, err);
    ErrorAfter(calls, reboots, stopOnError, entries, now, now', order, more, err, rebootErr, 2 * round + 1);
    if !stopOnError || rebootErr.None? {
      NextRound(calls, stopOnError, entries, now, reboots, round, err, now', FirstError(err, rebootErr));
    }
  }

  /** The ids of a map in some order. */
  method Enumerate<M>(entries: map<string, Entry<M>>) returns (ids: seq<string>)
    ensures DistinctIds(ids) && forall id :: id in ids <==> id in entries
  {
    ids := [];
    var rest := entries.Keys;
    while rest != {}
      invariant DistinctIds(ids) && rest <= entries.Keys
      invariant forall id :: id in ids <==> id in entries && id !in rest
      decreases |rest|
    {
      var id :| id in rest;
      DistinctSnoc(ids, id);
      ids := ids + [id];
      rest := rest - {id};
    }
  }

  lemma RefusedOutcome<M(!new)>(calls: Calls<M>, entries: map<string, Entry<M>>, pending: seq<string>,
                                now': map<string, Entry<M>>, err: Option<Error>)
    requires Refused(pending, entries, now') && err.Some?
    ensures Outcome(calls, true, entries, now', err)
  {
  }

  lemma PendingPresent<M(!new)>(calls: Calls<M>, stopOnError: bool, entries: map<string, Entry<M>>,
                                now: map<string, Entry<M>>, pending: seq<string>, round: nat, err: Option<Error>)
    requires Between(calls, stopOnError, entries, now, pending, round, err)
    ensures DistinctIds(pending) && forall id :: id in pending ==> id in now
  {
  }

  lemma RebootsPresent<M(!new)>(calls: Calls<M>, stopOnError: bool, entries: map<string, Entry<M>>,
                                now: map<string, Entry<M>>, reboots: seq<string>, round: nat, err: Option<Error>)
    requires Operated(calls, stopOnError, entries, now, reboots, round, err)
    ensures DistinctIds(reboots) && (forall id :: id in reboots ==> id in now) && !SomeMissing(now, reboots)
  {
  }

  lemma StoppedOutcome<M(!new)>(calls: Calls<M>, entries: map<string, Entry<M>>, now: map<string, Entry<M>>,
                                err: Option<Error>)
    requires AllReached(calls, entries, now) && !AnyMissing(entries) && err.Some? && SomeCallFailed(now)
    requires Told(true, entries, now, err.value)
    ensures Outcome(calls, true, entries, now, err)
  {
  }

  /** Only the first round can meet a component that is not configured. */
  lemma RefusedFirst<M(!new)>(calls: Calls<M>, stopOnError: bool, entries: map<string, Entry<M>>,
                              now: map<string, Entry<M>>, pending: seq<string>, round: nat, err: Option<Error>)
    requires Between(calls, stopOnError, entries, now, pending, round, err) && SomeMissing(now, pending)
    ensures round == 0 && now == entries && err.None?
  {
  }

  lemma NoneMissing<M(!new)>(calls: Calls<M>, stopOnError: bool, entries: map<string, Entry<M>>,
                             now: map<string, Entry<M>>, pending: seq<string>, err: Option<Error>)
    requires Between(calls, stopOnError, entries, now, pending, 0, err) && !SomeMissing(now, pending)
    ensures !AnyMissing(entries)
  {
  }

  lemma OperatedOutcome<M(!new)>(calls: Calls<M>, stopOnError: bool, entries: map<string, Entry<M>>,
                                 now: map<string, Entry<M>>, reboots: seq<string>, round: nat, err: Option<Error>)
    requires Operated(calls, stopOnError, entries, now, reboots, round, err) && !(stopOnError && AnyMissing(entries))
    requires reboots == [] || (stopOnError && err.Some?)
    ensures Outcome(calls, stopOnError, entries, now, err)
  {
  }

  /** The operation of a round. It ends the loop with an error that stops it, or when nobody asks for a reboot. */
  method OperateAll<M(!new)>(calls: Calls<M>, stopOnError: bool, ghost entries: map<string, Entry<M>>,
                             now: map<string, Entry<M>>, pending: seq<string>, ghost round: nat, err: Option<Error>)
    returns (now': map<string, Entry<M>>, reboots: seq<string>, err': Option<Error>, done: bool)
    requires Between(calls, stopOnError, entries, now, pending, round, err) && (stopOnError ==> err.None?)
    requires round > 0 ==> !(stopOnError && AnyMissing(entries))
    ensures done ==> Outcome(calls, stopOnError, entries, now', err')
    ensures !done ==>
              && Operated(calls, stopOnError, entries, now', reboots, round, err') && (stopOnError ==> err'.None?)
              && reboots != [] && !(stopOnError && AnyMissing(entries))
  {
    hide Between, Operated, Outcome, Made, Refused, AnyMissing, SomeMissing;
    PendingPresent(calls, stopOnError, entries, now, pending, round, err);
    var order, opErr;
    now', order, reboots, opErr := DoRound(calls, Operate, pending, stopOnError, now);
    err' := FirstError(err, opErr);
    done := |reboots| == 0 || (stopOnError && opErr.Some?);
    if stopOnError && SomeMissing(now, pending) {
      RefusedFirst(calls, stopOnError, entries, now, pending, round, err);
      RefusedOutcome(calls, entries, pending, now', err');
    } else {
      AfterOperation(calls, stopOnError, entries, now, pending, round, err, now', order, reboots, opErr);
      if round == 0 && stopOnError { NoneMissing(calls, stopOnError, entries, now, pending, err); }
      if done { OperatedOutcome(calls, stopOnError, entries, now', reboots, round, err'); }
    }
  }

  /** The reboots of a round; the components rebooted are the pending ones of the next. */
  method RebootAll<M(!new)>(calls: Calls<M>, stopOnError: bool, ghost entries: map<string, Entry<M>>,
                            now: map<string, Entry<M>>, reboots: seq<string>, ghost round: nat, err: Option<Error>)
    returns (now': map<string, Entry<M>>, err': Option<Error>, done: bool)
    requires Operated(calls, stopOnError, entries, now, reboots, round, err) && (stopOnError ==> err.None?)
    requires !(stopOnError && AnyMissing(entries))
    ensures done ==> Outcome(calls, stopOnError, entries, now', err')
    ensures !done ==> Between(calls, stopOnError, entries, now', reboots, round + 1, err')
    ensures !done && stopOnError ==> err'.None?
  {
    hide Between, Operated, Outcome, Made, Refused, AnyMissing, SomeMissing, AllReached, SomeCallFailed, Told;
    RebootsPresent(calls, stopOnError, entries, now, reboots, round, err);
    var order, more, rebootErr;
    now', order, more, rebootErr := DoRound(calls, Reboot, reboots, stopOnError, now);
    AfterReboot(calls, stopOnError, entries, now, reboots, round, err, now', order, more, rebootErr);
    err' := FirstError(err, rebootErr);
    done := stopOnError && rebootErr.Some?;
    if done { StoppedOutcome(calls, entries, now', err'); }
  }

  /** Some component has been operated on and rebooted in each of so many rounds: it asked for a reboot every time. */
  ghost predicate StillAsking<M>(calls: Calls<M>, entries: map<string, Entry<M>>, entries': map<string, Entry<M>>,
                                 rounds: nat) {
    exists id :: Configured(entries, id) && id in entries' && Reached(calls, id, entries[id], entries'[id])
              && |entries'[id].history| == 2 * rounds
  }

  lemma AtStart<M(!new)>(calls: Calls<M>, stopOnError: bool, entries: map<string, Entry<M>>, pending: seq<string>)
    requires DistinctIds(pending) && (forall id :: id in pending <==> id in entries)
    requires forall id :: id in entries ==> entries[id].history == []
    ensures Between(calls, stopOnError, entries, entries, pending, 0, None)
    ensures pending == [] ==> Outcome(calls, stopOnError, entries, entries, None)
  {
  }

  lemma PendingStillAsk<M(!new)>(calls: Calls<M>, stopOnError: bool, entries: map<string, Entry<M>>,
                                 now: map<string, Entry<M>>, pending: seq<string>, round: nat, err: Option<Error>)
    requires Between(calls, stopOnError, entries, now, pending, round, err) && pending != [] && round > 0
    ensures StillAsking(calls, entries, now, round)
  {
    var id := pending[0];
    assert id in pending && Configured(entries, id);
  }

  /** Operates on every component, reboots those that ask for it, and repeats with them. The code does so as long as
      any component asks; finished tells whether it has come to an end within the given number of rounds. */
  method ComponentOperation<M(!new)>(calls: Calls<M>, stopOnError: bool, entries: map<string, Entry<M>>, rounds: nat)
    returns (entries': map<string, Entry<M>>, err: Option<Error>, finished: bool)
    requires rounds > 0 && forall id :: id in entries ==> entries[id].history == []
    ensures finished ==> Outcome(calls, stopOnError, entries, entries', err)
    ensures !finished ==> StillAsking(calls, entries, entries', rounds)
  {
    hide Between, Operated, Outcome, AnyMissing, DistinctIds, StillAsking;
    var pending := Enumerate(entries);
    entries', err := entries, None;
    AtStart(calls, stopOnError, entries, pending);
    var round: nat := 0;
    while |pending| != 0 && round < rounds
      invariant round <= rounds && Between(calls, stopOnError, entries, entries', pending, round, err)
      invariant stopOnError ==> err.None?
      invariant round > 0 ==> pending != [] && !(stopOnError && AnyMissing(entries))
      invariant pending == [] ==> Outcome(calls, stopOnError, entries, entries', err)
      decreases rounds - round
    {
      var reboots, done;
      entries', reboots, err, done := OperateAll(calls, stopOnError, entries, entries', pending, round, err);
      if done { return entries', err, true; }
      entries', err, done := RebootAll(calls, stopOnError, entries, entries', reboots, round, err);
      if done { return entries', err, true; }
      pending := reboots;
      round := round + 1;
    }
    finished := |pending| == 0;
    if !finished { PendingStillAsk(calls, stopOnError, entries, entries', pending, round, err); }
  }

  // ---------------------------------------------------------------- reading an outcome

  function CountOf<M>(history: seq<Call<M>>, action: Action): nat {
    if history == [] then 0
    else CountOf(history[..|history| - 1], action) + if history[|history| - 1].action == action then 1 else 0
  }

  /** Operation and reboot alternate, so a bound on all calls bounds each kind. */
  lemma {:induction false} CallCounts<M(!new)>(calls: Calls<M>, id: string, e0: Entry<M>, history: seq<Call<M>>)
    requires e0.component.Some? && forall k: nat :: k < |history| ==> Link(calls, id, e0, history, k)
    ensures CountOf(history, Operate) == (|history| + 1) / 2 && CountOf(history, Reboot) == |history| / 2
  {
    if history != [] {
      var front := history[..|history| - 1];
      forall k: nat | k < |front| ensures Link(calls, id, e0, front, k) {
        assert Link(calls, id, e0, history, k);
      }
      CallCounts(calls, id, e0, front);
      assert Link(calls, id, e0, history, |history| - 1);
    }
  }

  lemma {:induction false} RankAt<M(!new)>(calls: Calls<M>, id: string, e0: Entry<M>, history: seq<Call<M>>,
                                           rank: M -> nat, bound: nat, j: nat)
    requires e0.component.Some? && RanksDrop(calls, rank) && rank(e0.component.value.updateModule) <= bound
    requires (forall k: nat :: k < |history| ==> Link(calls, id, e0, history, k)) && 2 * j <= |history|
    ensures rank(ModuleAt(e0, history, 2 * j)) + j <= bound
  {
    if j > 0 {
      RankAt(calls, id, e0, history, rank, bound, j - 1);
      assert Link(calls, id, e0, history, 2 * j - 2) && Link(calls, id, e0, history, 2 * j - 1);
    }
  }

  lemma RankBoundsCalls<M(!new)>(calls: Calls<M>, id: string, e0: Entry<M>, e: Entry<M>, rank: M -> nat, bound: nat)
    requires e0.component.Some? && Reached(calls, id, e0, e)
    requires RanksDrop(calls, rank) && rank(e0.component.value.updateModule) <= bound
    ensures CountOf(e.history, Operate) <= bound + 1 && CountOf(e.history, Reboot) <= bound
  {
    CallCounts(calls, id, e0, e.history);
    RankAt(calls, id, e0, e.history, rank, bound, |e.history| / 2);
  }

  /** Whatever fails and whether or not errors stop the loop: a module whose rank is at most bound is operated on at
      most bound + 1 times and rebooted at most bound times. */
  lemma LoopBound<M(!new)>(calls: Calls<M>, stopOnError: bool, entries: map<string, Entry<M>>,
                           entries': map<string, Entry<M>>, err: Option<Error>, rank: M -> nat, bound: nat, id: string)
    requires Outcome(calls, stopOnError, entries, entries', err) && RanksDrop(calls, rank)
    requires Configured(entries, id) && entries[id].history == [] &&
             rank(entries[id].component.value.updateModule) <= bound
    ensures CountOf(entries'[id].history, Operate) <= bound + 1 && CountOf(entries'[id].history, Reboot) <= bound
  {
    if entries'[id] != entries[id] {
      RankBoundsCalls(calls, id, entries[id], entries'[id], rank, bound);
    }
  }

  lemma {:induction false} ModuleAtKeeps<M(!new)>(calls: Calls<M>, id: string, e0: Entry<M>, history: seq<Call<M>>,
                                                  p: M -> bool, from: nat, k: nat)
    requires e0.component.Some? && from <= k <= |history| && p(ModuleAt(e0, history, from))
    requires forall i: nat :: i < |history| ==> Link(calls, id, e0, history, i)
    requires forall made, m :: p(m) ==> p(calls.operate(id, e0.status.version, made, m).next)
    requires forall m :: p(m) ==> p(calls.reboot(m).next)
    ensures p(ModuleAt(e0, history, k))
  {
    if k > from {
      ModuleAtKeeps(calls, id, e0, history, p, from, k - 1);
      assert Link(calls, id, e0, history, k - 1);
    }
  }

  /** What the operation and the reboot preserve holds after any number of calls. */
  lemma ReachedKeeps<M(!new)>(calls: Calls<M>, id: string, e0: Entry<M>, e: Entry<M>, p: M -> bool)
    requires e0.component.Some? && Reached(calls, id, e0, e) && p(e0.component.value.updateModule)
    requires forall made, m :: p(m) ==> p(calls.operate(id, e0.status.version, made, m).next)
    requires forall m :: p(m) ==> p(calls.reboot(m).next)
    ensures e.component.Some? && p(e.component.value.updateModule)
  {
    ModuleAtKeeps(calls, id, e0, e.history, p, 0, |e.history|);
  }

  /** What every operation establishes and the reboot preserves holds once there was a call. */
  lemma ReachedEstablishes<M(!new)>(calls: Calls<M>, id: string, e0: Entry<M>, e: Entry<M>, p: M -> bool)
    requires e0.component.Some? && Reached(calls, id, e0, e) && e.history != []
    requires forall made, m :: p(calls.operate(id, e0.status.version, made, m).next)
    requires forall m :: p(m) ==> p(calls.reboot(m).next)
    ensures e.component.Some? && p(e.component.value.updateModule)
  {
    assert Link(calls, id, e0, e.history, 0);
    ModuleAtKeeps(calls, id, e0, e.history, p, 1, |e.history|);
  }

  /** What the operation establishes from the module as it was, and operation and reboot preserve, holds once there
      was a call. */
  lemma ReachedFrom<M(!new)>(calls: Calls<M>, id: string, e0: Entry<M>, e: Entry<M>, p: M -> bool)
    requires e0.component.Some? && Reached(calls, id, e0, e) && e.history != []
    requires forall made :: p(calls.operate(id, e0.status.version, made, e0.component.value.updateModule).next)
    requires forall made, m :: p(m) ==> p(calls.operate(id, e0.status.version, made, m).next)
    requires forall m :: p(m) ==> p(calls.reboot(m).next)
    ensures e.component.Some? && p(e.component.value.updateModule)
  {
    assert Link(calls, id, e0, e.history, 0);
    ModuleAtKeeps(calls, id, e0, e.history, p, 1, |e.history|);
  }

  /** Modules of rank at most bound end the loop within bound + 1 rounds. */
  lemma LoopFinishes<M(!new)>(calls: Calls<M>, entries: map<string, Entry<M>>, entries': map<string, Entry<M>>,
                              rank: M -> nat, bound: nat)
    requires RanksDrop(calls, rank)
    requires forall id :: Configured(entries, id) ==> rank(entries[id].component.value.updateModule) <= bound
    ensures !StillAsking(calls, entries, entries', bound + 1)
  {
    if StillAsking(calls, entries, entries', bound + 1) {
      var id :| Configured(entries, id) && id in entries' && Reached(calls, id, entries[id], entries'[id])
                && |entries'[id].history| == 2 * (bound + 1);
      RankAt(calls, id, entries[id], entries'[id].history, rank, bound, bound + 1);
      assert false;
    }
  }

  /** The operation is first called in the state the module had before the event, and if that call asks for no
      reboot it is the only one. */
  lemma FirstCall<M(!new)>(calls: Calls<M>, id: string, e0: Entry<M>, e: Entry<M>)
    requires e0.component.Some? && e0.history == [] && Reached(calls, id, e0, e) && e.history != []
    ensures var first := calls.operate(id, e0.status.version, 0, e0.component.value.updateModule);
      && e.history[0].answer == first
      && (first.result != RebootRequired ==> |e.history| == 1 && e.component.value.updateModule == first.next)
  {
    assert Link(calls, id, e0, e.history, 0);
    if |e.history| > 1 {
      assert Link(calls, id, e0, e.history, 1);
    }
  }

  /** Without an error, stopping on errors means that the last call for every component, in the state its calls so far
      have brought the module to, was the operation, that it succeeded without asking for a reboot, and that it left
      the module as it is now. */
  lemma AllDone<M(!new)>(calls: Calls<M>, entries: map<string, Entry<M>>, entries': map<string, Entry<M>>, id: string)
    requires Outcome(calls, true, entries, entries', None) && id in entries
    ensures Configured(entries, id) && Configured(entries', id) && Reached(calls, id, entries[id], entries'[id])
    ensures entries'[id].history != []
    ensures var n := |entries'[id].history| - 1;
      var last := entries'[id].history[n];
      && last.action == Operate && last.before == ModuleAt(entries[id], entries'[id].history, n)
      && last.answer == calls.operate(id, entries[id].status.version, n, last.before)
      && last.answer.result == Done && last.answer.next == entries'[id].component.value.updateModule
  {
    assert Configured(entries, id) by {
      assert !Missing(entries, id);
    }
    assert Reached(calls, id, entries[id], entries'[id]) && Complete(entries'[id]);
    assert Link(calls, id, entries[id], entries'[id].history, |entries'[id].history| - 1);
    assert !CallFailed(entries'[id]) by {
      assert Configured(entries', id);
    }
  }

  /** If errors stop the loop in its first round, the components left out are exactly those of a lower update priority
      than the one whose error is told, and no component has been rebooted. */
  lemma LeftOutBelow<M(!new)>(calls: Calls<M>, entries: map<string, Entry<M>>, entries': map<string, Entry<M>>,
                              err: Error)
    returns (first: string, k: nat)
    requires Outcome(calls, true, entries, entries', Some(err)) && !AnyMissing(entries)
    ensures Configured(entries, first) && first in entries' && k < |entries'[first].history|
    ensures entries'[first].history[k].answer.result == Failed(err)
    ensures k == 0 ==> forall id :: Configured(entries, id) && id in entries' ==>
              && |entries'[id].history| <= 1
              && (entries'[id].history == [] <==>
                    entries[id].component.value.updatePriority < entries[first].component.value.updatePriority)
  {
    hide AllReached, SomeCallFailed;
    var f, n: nat :| Tells(entries, entries', err, f, n) && Halted(entries, entries', f, n);
    first, k := f, n;
  }

  /** Without stopOnError every configured component is operated on, whatever fails. */
  lemma AllCalled<M(!new)>(calls: Calls<M>, entries: map<string, Entry<M>>, entries': map<string, Entry<M>>,
                           err: Option<Error>, id: string)
    requires Outcome(calls, false, entries, entries', err) && Configured(entries, id)
    ensures id in entries' && Reached(calls, id, entries[id], entries'[id])
    ensures entries'[id].history != [] && Last(entries'[id]) != RebootRequired
  {
    assert Complete(entries'[id]);
  }

  /** A component's status is newly in error after the loop exactly when one of the calls for it failed or the lookup
      of the component did. The first failed lookup ends an operation that stops on errors, before any call. */
  lemma StatusesMarked<M(!new)>(calls: Calls<M>, stopOnError: bool, entries: map<string, Entry<M>>,
                                entries': map<string, Entry<M>>, err: Option<Error>, id: string)
    requires Outcome(calls, stopOnError, entries, entries', err) && id in entries &&
             entries[id].status.status != InError
    ensures if stopOnError && AnyMissing(entries)
            then (exists first :: Missing(entries, first) && (entries'[id].status.status == InError <==> id == first))
                 && entries'[id].history == entries[id].history
            else entries'[id].status.status == InError <==> Missing(entries, id) || CallFailed(entries'[id])
    ensures entries'[id].status.status == InError && (stopOnError || !Missing(entries, id)) ==> err.Some?
  {
    if stopOnError && AnyMissing(entries) {
      var first :| Missing(entries, first) && entries' == entries[first := Marked(entries[first])];
    }
    if !Missing(entries, id) {
      assert Configured(entries, id) && Configured(entries', id);
    }
  }

  /** The call failed and no later one did. */
  ghost predicate LastFailure<M>(history: seq<Call<M>>, k: nat) {
    k < |history| && history[k].answer.result.Failed? && forall j :: k < j < |history| ==>
      !history[j].answer.result.Failed?
  }

  lemma {:induction false} LastErrorAt<M>(history: seq<Call<M>>) returns (k: nat)
    requires exists i :: 0 <= i < |history| && history[i].answer.result.Failed?
    ensures LastFailure(history, k) && LastError(history) == history[k].answer.result.error
  {
    var n := |history| - 1;
    if history[n].answer.result.Failed? { return n; }
    k := LastErrorAt(history[..n]);
    assert forall j :: 0 <= j < n ==> history[..n][j] == history[j];
  }

  /** A status changes only to tell an error: that of the last call for its component that failed, or that the component
      is not configured. */
  lemma StatusTells<M(!new)>(calls: Calls<M>, stopOnError: bool, entries: map<string, Entry<M>>,
                             entries': map<string, Entry<M>>, err: Option<Error>, id: string)
    requires Outcome(calls, stopOnError, entries, entries', err) && id in entries && entries[id].history == []
    ensures var told, status := entries'[id].status, entries[id].status;
      && told.componentType == status.componentType && told.version == status.version
      && (Missing(entries, id) ==> told == status || (told.status, told.error) == (InError, "component not found"))
      && (Configured(entries, id) && !CallFailed(entries'[id]) ==> told == status)
      && (Configured(entries, id) && CallFailed(entries'[id]) ==>
            exists k: nat ::
              LastFailure(entries'[id].history, k)
              && (told.status, told.error) == (InError, entries'[id].history[k].answer.result.error))
  {
    if stopOnError && AnyMissing(entries) {
      var first :| Missing(entries, first) && entries' == entries[first := Marked(entries[first])];
    } else if Configured(entries, id) {
      if CallFailed(entries'[id]) { var k := LastErrorAt(entries'[id].history); }
    }
  }
}
