/**
  The warm-up surface (packages/hub/src/fetch.ts, `preparePhase`, `runPrefetchPhase`, `prefetchAssets`).

  At most four workers share the counter `next`; each claims the next reference, warms it and comes
  back.  The first failure aborts the others.  As in FetchAssets, the events are the continuations of
  the workers, in any order.
 */
module Prefetch {
  import opened Wrappers
  import opened FileRefs
  import opened FetchErrors

  const CONCURRENCY: nat := 4

  /** `sessionWarms`: the session's source has a phase 1. */
  datatype Call = Call(refs: seq<FileRef>, sessionWarms: bool)
  {
    function Workers(): nat { if |refs| < CONCURRENCY then |refs| else CONCURRENCY }
  }

  /** What resolving the source of one reference gives. */
  datatype Origin = Unreachable(error: Error) | Direct | Warms

  /** `Idle` workers stand at the loop head, `Rejecting` ones hold a failure they have not reported. */
  datatype Worker = Idle | Warming(ref: nat) | Rejecting(ref: nat, reason: Error) | Stopped(ok: bool)

  /** Where one reference is. */
  datatype Place = Unclaimed | InHand(worker: nat) | Complete | Lost

  /** The internal error for a reference whose source lacks the phase 1 that the session's source has. */
  const NO_PHASE_ONE: Error := Raw(0)

  datatype Outcome = Done | Throw(error: Error)

  datatype State = State(
    workers: seq<Worker>,
    next: nat,
    places: seq<Place>,
    external: Option<Error>,
    failure: Option<Error>,
    signal: Option<Error>,
    outcome: Option<Outcome>,
    claims: seq<nat>,
    touched: seq<nat>,
    completed: seq<nat>,
    failures: seq<Error>
  )

  datatype Event =
    | Cancel(reason: Error)
    | Claim(worker: nat, origin: Origin)
    | Leave(worker: nat)
    | WarmOk(worker: nat)
    | WarmFail(worker: nat, error: Error)
    | Reject(worker: nat)
    | Return

  // ----- input checks -------------------------------------------------------------------------

  datatype Prepared = Ready | NothingToFetch | Duplicate(key: string)

  /** Reference j is the first whose identity an earlier one has. */
  ghost predicate FirstRepeated(refs: seq<FileRef>, j: nat) {
    && j < |refs| && (exists i :: 0 <= i < j && FileRefKey(refs[i]) == FileRefKey(refs[j]))
    && forall k, l :: 0 <= k < l < j ==> FileRefKey(refs[k]) != FileRefKey(refs[l])
  }

  lemma NextKey(refs: seq<FileRef>, n: nat)
    requires n < |refs| && DistinctKeys(refs[..n])
    ensures KeySet(refs[..n + 1]) == KeySet(refs[..n]) + {FileRefKey(refs[n])}
    ensures if FileRefKey(refs[n]) in KeySet(refs[..n]) then FirstRepeated(refs, n) else DistinctKeys(refs[..n + 1])
  {
    var before, key := refs[..n], FileRefKey(refs[n]);
    assert refs[..n + 1] == before + [refs[n]];
    KeySetAppend(before, [refs[n]]);
    assert FileRefKey([refs[n]][0]) in KeySet([refs[n]]);
    assert forall i :: 0 <= i < n ==> before[i] == refs[i];
    if key in KeySet(before) {
      var i :| 0 <= i < n && FileRefKey(before[i]) == key;
      assert FileRefKey(refs[i]) == key;
    }
  }

  /** Refuses an empty list, and a list with two references of one identity, of which it names the first. */
  method PreparePhase(refs: seq<FileRef>) returns (r: Prepared)
    ensures r.NothingToFetch? <==> refs == []
    ensures r.Ready? <==> refs != [] && forall i, j :: 0 <= i < j < |refs| ==> FileRefKey(refs[i]) != FileRefKey(refs[j])
    ensures r.Duplicate? ==> exists j: nat :: FirstRepeated(refs, j) && FileRefKey(refs[j]) == r.key
  {
    if refs == [] {
      return NothingToFetch;
    }
    var declared: set<string> := {};
    for n := 0 to |refs|
      invariant declared == KeySet(refs[..n]) && DistinctKeys(refs[..n])
    {
      var key := FileRefKey(refs[n]);
      NextKey(refs, n);
      if key in declared {
        return Duplicate(key);
      }
      declared := declared + {key};
    }
    assert refs[..|refs|] == refs;
    return Ready;
  }

  // ----- transitions --------------------------------------------------------------------------

  predicate WellFormed(c: Call, s: State) {
    |s.places| == |c.refs| && s.next <= |c.refs|
  }

  function Init(c: Call, external: Option<Error>): State {
    State(seq(c.Workers(), _ => Idle), 0, seq(|c.refs|, _ => Unclaimed),
          external, None, external, None, [], [], [], [])
  }

  predicate Enabled(c: Call, s: State, e: Event) {
    WellFormed(c, s) &&
    match e
    case Cancel(_) => s.external.None? && s.outcome.None?
    case Claim(w, _) => w < |s.workers| && s.workers[w].Idle? && s.next < |c.refs|
    case Leave(w) => w < |s.workers| && s.workers[w].Idle? && s.next == |c.refs|
    case WarmOk(w) => w < |s.workers| && s.workers[w].Warming? && s.workers[w].ref < |c.refs|
    case WarmFail(w, _) => w < |s.workers| && s.workers[w].Warming? && s.workers[w].ref < |c.refs|
    case Reject(w) => w < |s.workers| && s.workers[w].Rejecting? && s.workers[w].ref < |c.refs|
    case Return => s.outcome.None? && forall w :: 0 <= w < |s.workers| ==> s.workers[w].Stopped?
  }

  /** The worker after the synchronous part of one reference; Idle when the reference is complete. */
  function FirstMove(c: Call, s: State, origin: Origin): Worker {
    if s.signal.Some? then Rejecting(s.next, s.signal.value)
    else match origin
      case Unreachable(error) =>
        Rejecting(s.next, if error.Hub? || error.FetchFailure? then error else FetchFailure(error))
      case Direct => if c.sessionWarms then Rejecting(s.next, NO_PHASE_ONE) else Idle
      case Warms => Warming(s.next)
  }

  /** What a failed warm-up surfaces as; an aborted signal hides everything but hub errors. */
  function WarmFailure(error: Error, signal: Option<Error>): Error {
    if error.Hub? || error.FetchFailure? || IsAborted(error, signal) then error
    else if signal.Some? then signal.value
    else FetchFailure(error)
  }

  function Completed(s: State, w: nat, i: nat): State
    requires w < |s.workers| && i < |s.places|
  {
    s.(workers := s.workers[w := Idle], places := s.places[i := Complete], completed := s.completed + [i])
  }

  function Apply(c: Call, s: State, e: Event): State
    requires Enabled(c, s, e)
  {
    match e
    case Cancel(reason) => s.(external := Some(reason), signal := Abort(s.signal, reason))
    case Claim(w, origin) =>
      var move := FirstMove(c, s, origin);
      var s1 := s.(next := s.next + 1,
                   claims := s.claims + [w],
                   touched := if move.Warming? then s.touched + [s.next] else s.touched);
      if move.Idle? then Completed(s1, w, s.next)
      else s1.(workers := s.workers[w := move], places := s.places[s.next := InHand(w)])
    case Leave(w) => s.(workers := s.workers[w := Stopped(true)])
    case WarmOk(w) =>
      var i := s.workers[w].ref;
      if s.signal.Some? then s.(workers := s.workers[w := Rejecting(i, s.signal.value)])
      else Completed(s, w, i)
    case WarmFail(w, error) =>
      s.(workers := s.workers[w := Rejecting(s.workers[w].ref, WarmFailure(error, s.signal))])
    case Reject(w) =>
      var reason := s.workers[w].reason;
      s.(workers := s.workers[w := Stopped(false)],
         places := s.places[s.workers[w].ref := Lost],
         failure := Abort(s.failure, reason),
         signal := Abort(s.signal, reason),
         failures := s.failures + [reason])
    case Return =>
      s.(outcome := Some(if s.failure.Some? then Throw(s.failure.value)
                         else if s.external.Some? then Throw(s.external.value)
                         else Done))
  }

  predicate Legal(c: Call, s: State, events: seq<Event>)
    decreases |events|
  {
    events != [] ==> Enabled(c, s, events[0]) && Legal(c, Apply(c, s, events[0]), events[1..])
  }

  function After(c: Call, s: State, events: seq<Event>): State
    requires Legal(c, s, events)
    decreases |events|
  {
    if events == [] then s else After(c, Apply(c, s, events[0]), events[1..])
  }

  // ----- invariants ---------------------------------------------------------------------------

  predicate Holding(w: Worker) { w.Warming? || w.Rejecting? }

  /** Every claimed reference is complete, lost, or in the hands of the one worker that claimed it. */
  ghost predicate Claims(c: Call, s: State) {
    && WellFormed(c, s)
    && |s.workers| == c.Workers()
    && |s.claims| == s.next
    && (forall i :: 0 <= i < s.next ==> s.claims[i] < |s.workers|)
    && (forall i :: 0 <= i < |s.places| ==> (s.places[i].Unclaimed? <==> i >= s.next))
    && (forall i :: 0 <= i < |s.places| && s.places[i].InHand? ==>
          && s.places[i].worker == s.claims[i]
          && Holding(s.workers[s.places[i].worker])
          && s.workers[s.places[i].worker].ref == i)
    && (forall w :: 0 <= w < |s.workers| && Holding(s.workers[w]) ==>
          s.workers[w].ref < s.next && s.places[s.workers[w].ref] == InHand(w))
    && (forall w :: 0 <= w < |s.workers| && s.workers[w] == Stopped(true) ==> s.next == |c.refs|)
  }

  /** `complete` was emitted exactly for the complete references, once each. */
  ghost predicate Emissions(s: State) {
    && (forall k, l :: 0 <= k < l < |s.completed| ==> s.completed[k] != s.completed[l])
    && (forall i: nat :: i in s.completed <==> i < |s.places| && s.places[i].Complete?)
  }

  ghost predicate Causes(s: State) {
    && s.failure == (if s.failures == [] then None else Some(s.failures[0]))
    && (s.signal.None? ==> s.external.None? && s.failures == [])
    && (s.external.None? ==> s.signal == s.failure)
    && (s.failures == [] <==> forall i :: 0 <= i < |s.places| ==> !s.places[i].Lost?)
    && (s.failures == [] <==> forall w :: 0 <= w < |s.workers| ==> s.workers[w] != Stopped(false))
    && (s.outcome.Some? ==>
          && (forall w :: 0 <= w < |s.workers| ==> s.workers[w].Stopped?)
          && s.outcome.value == (if s.failures != [] then Throw(s.failures[0])
                                 else if s.external.Some? then Throw(s.external.value)
                                 else Done))
  }

  ghost predicate Inv(c: Call, s: State) {
    Claims(c, s) && Emissions(s) && Causes(s)
  }

  /** Worker w, which holds nothing, takes the next reference. */
  lemma TakeKeepsClaims(c: Call, s: State, w: nat, move: Worker)
    requires Claims(c, s) && w < |s.workers| && s.workers[w].Idle? && s.next < |c.refs|
    requires Holding(move) && move.ref == s.next
    ensures Claims(c, s.(next := s.next + 1, claims := s.claims + [w],
                         workers := s.workers[w := move], places := s.places[s.next := InHand(w)]))
  {
  }

  /** Worker w completes the next reference at once. */
  lemma PassKeepsClaims(c: Call, s: State, w: nat)
    requires Claims(c, s) && w < |s.workers| && s.workers[w].Idle? && s.next < |c.refs|
    ensures Claims(c, s.(next := s.next + 1, claims := s.claims + [w],
                         workers := s.workers[w := Idle], places := s.places[s.next := Complete]))
  {
    assert s.workers[w := Idle] == s.workers;
  }

  /** Worker w gives its reference up, to a place nobody holds. */
  lemma DropKeepsClaims(c: Call, s: State, w: nat, st: Worker, place: Place)
    requires Claims(c, s) && w < |s.workers| && Holding(s.workers[w])
    requires st == Idle || st == Stopped(false)
    requires place == Complete || place == Lost
    ensures Claims(c, s.(workers := s.workers[w := st], places := s.places[s.workers[w].ref := place]))
  {
  }

  lemma ClaimKeepsClaims(c: Call, s: State, w: nat, origin: Origin)
    requires Claims(c, s) && Enabled(c, s, Claim(w, origin))
    ensures Claims(c, Apply(c, s, Claim(w, origin)))
  {
    var move := FirstMove(c, s, origin);
    if move.Idle? {
      PassKeepsClaims(c, s, w);
    } else {
      TakeKeepsClaims(c, s, w, move);
    }
  }

  /** Worker w, which holds a reference, goes on to reject it. */
  lemma TurnKeepsClaims(c: Call, s: State, w: nat, move: Worker)
    requires Claims(c, s) && w < |s.workers| && Holding(s.workers[w])
    requires Holding(move) && move.ref == s.workers[w].ref
    ensures Claims(c, s.(workers := s.workers[w := move]))
  {
  }

  lemma StepKeepsClaims(c: Call, s: State, e: Event)
    requires Claims(c, s) && Enabled(c, s, e)
    ensures Claims(c, Apply(c, s, e))
  {
    match e
    case Claim(w, origin) => ClaimKeepsClaims(c, s, w, origin);
    case WarmOk(w) =>
      if s.signal.None? {
        DropKeepsClaims(c, s, w, Idle, Complete);
      } else {
        TurnKeepsClaims(c, s, w, Rejecting(s.workers[w].ref, s.signal.value));
      }
    case Reject(w) => DropKeepsClaims(c, s, w, Stopped(false), Lost);
    case Leave(w) =>
    case WarmFail(w, error) => TurnKeepsClaims(c, s, w, Rejecting(s.workers[w].ref, WarmFailure(error, s.signal)));
    case Cancel(_) =>
    case Return =>
  }

  lemma StepKeepsEmissions(c: Call, s: State, e: Event)
    requires Claims(c, s) && Emissions(s) && Enabled(c, s, e)
    ensures Emissions(Apply(c, s, e))
  {
    var t := Apply(c, s, e);
    if t.completed != s.completed {
      var i := t.completed[|s.completed|];
      assert t.completed == s.completed + [i] && i !in s.completed;
      forall k, l | 0 <= k < l < |t.completed|
        ensures t.completed[k] != t.completed[l]
      {
        assert t.completed[k] in s.completed;
      }
    }
  }

  lemma StepKeepsCauses(c: Call, s: State, e: Event)
    requires Claims(c, s) && Causes(s) && Enabled(c, s, e)
    ensures Causes(Apply(c, s, e))
  {
    var t := Apply(c, s, e);
    if e.Reject? {
      assert t.places[s.workers[e.worker].ref].Lost?;
      assert t.workers[e.worker] == Stopped(false);
    } else {
      assert forall i :: 0 <= i < |s.places| ==> (t.places[i].Lost? <==> s.places[i].Lost?);
      assert forall w :: 0 <= w < |s.workers| ==> (t.workers[w] == Stopped(false) <==> s.workers[w] == Stopped(false));
    }
  }

  lemma StepKeepsInv(c: Call, s: State, e: Event)
    requires Inv(c, s) && Enabled(c, s, e)
    ensures Inv(c, Apply(c, s, e))
  {
    StepKeepsClaims(c, s, e);
    StepKeepsEmissions(c, s, e);
    StepKeepsCauses(c, s, e);
  }

  lemma {:induction false} RunKeepsInv(c: Call, s: State, events: seq<Event>)
    requires Inv(c, s) && Legal(c, s, events)
    ensures Inv(c, After(c, s, events))
    decreases |events|
  {
    if events != [] {
      StepKeepsInv(c, s, events[0]);
      RunKeepsInv(c, Apply(c, s, events[0]), events[1..]);
    }
  }

  lemma InitInv(c: Call, external: Option<Error>)
    ensures Inv(c, Init(c, external))
  {
  }

  // ----- theorems over whole runs -------------------------------------------------------------

  function HeldBy(places: seq<Place>): (r: set<nat>)
    ensures forall i: nat :: i in r <==> i < |places| && places[i].InHand?
  {
    set i: nat | i < |places| && places[i].InHand? :: i
  }

  /** Distinct references in hand are held by distinct workers, so there are at most as many. */
  lemma {:induction false} HandsBounded(c: Call, s: State, held: set<nat>, workers: set<nat>)
    requires Claims(c, s) && held <= HeldBy(s.places)
    requires forall i :: i in held ==> s.places[i].worker in workers
    ensures |held| <= |workers|
    decreases |held|
  {
    if held != {} {
      var i :| i in held;
      var w := s.places[i].worker;
      assert forall j :: j in held && s.places[j].worker == w ==> s.workers[w].ref == j;
      HandsBounded(c, s, held - {i}, workers - {w});
    }
  }

  function Below(n: nat): (r: set<nat>)
    ensures forall w: nat :: w in r <==> w < n
    ensures |r| == n
  {
    if n == 0 then {} else Below(n - 1) + {n - 1}
  }

  /**
    There are four workers, or one for each reference if these are fewer, and none leaves before all references
    are claimed.  Every reference below `next` was claimed by one worker, each worker has at most one in
    hand, and `complete` was emitted at most once per reference.
   */
  lemma ClaimedOnce(c: Call, external: Option<Error>, events: seq<Event>)
    requires Legal(c, Init(c, external), events)
    ensures var s := After(c, Init(c, external), events);
            && |s.claims| == s.next <= |c.refs|
            && |s.workers| == (if |c.refs| < 4 then |c.refs| else 4) && |HeldBy(s.places)| <= |s.workers|
            && (forall w :: 0 <= w < |s.workers| && s.workers[w] == Stopped(true) ==> s.next == |c.refs|)
            && (forall i: nat :: i in HeldBy(s.places) ==>
                  i < s.next && s.places[i].worker == s.claims[i] < |s.workers| && Holding(s.workers[s.claims[i]])
                  && s.workers[s.claims[i]].ref == i)
            && (forall k, l :: 0 <= k < l < |s.completed| ==> s.completed[k] != s.completed[l])
  {
    InitInv(c, external);
    RunKeepsInv(c, Init(c, external), events);
    var s := After(c, Init(c, external), events);
    HandsBounded(c, s, HeldBy(s.places), Below(|s.workers|));
  }

  /**
    The call returns after every worker has stopped.  It succeeds exactly when nothing failed and nothing
    was cancelled, and then every reference has one `complete`; otherwise it throws the first failure,
    or else the caller's reason.
   */
  lemma OutcomeOfCall(c: Call, external: Option<Error>, events: seq<Event>)
    requires c.refs != [] && Legal(c, Init(c, external), events)
    requires After(c, Init(c, external), events).outcome.Some?
    ensures var s := After(c, Init(c, external), events);
            && (forall w :: 0 <= w < |s.workers| ==> s.workers[w].Stopped?)
            && (s.outcome == Some(Done) <==> s.failures == [] && s.external.None?)
            && (s.outcome == Some(Done) ==> forall i: nat :: i < |c.refs| <==> i in s.completed)
            && (forall k, l :: 0 <= k < l < |s.completed| ==> s.completed[k] != s.completed[l])
            && (s.failures != [] ==> s.outcome == Some(Throw(s.failures[0])))
            && (s.failures == [] && s.external.Some? ==> s.outcome == Some(Throw(s.external.value)))
  {
    InitInv(c, external);
    RunKeepsInv(c, Init(c, external), events);
    var s := After(c, Init(c, external), events);
    if s.outcome == Some(Done) {
      assert s.workers[0] == Stopped(true);
      forall i: nat | i < |c.refs|
        ensures s.places[i].Complete?
      {
        assert !s.places[i].Unclaimed? && !s.places[i].InHand?;
      }
    }
  }

  // ----- what the sources answered ------------------------------------------------------------

  // Read off the schedule alone: the cancellation, what each worker claimed, which references were warm
  // at once or warmed, and what a worker that gives up gives up with.

  /** The reason the call was cancelled with, before it or by one of the events. */
  function CancelReason(external: Option<Error>, events: seq<Event>): Option<Error> {
    if events == [] then external
    else
      var before, last := CancelReason(external, events[..|events| - 1]), events[|events| - 1];
      if before.None? && last.Cancel? then Some(last.reason) else before
  }

  /** Somebody cancelled, or a worker has reported a failure. */
  predicate Aborted(external: Option<Error>, events: seq<Event>) {
    external.Some? || exists i :: 0 <= i < |events| && (events[i].Cancel? || events[i].Reject?)
  }

  /** The workers that claimed the references, in order. */
  function Claimants(events: seq<Event>): seq<nat> {
    if events == [] then []
    else
      var before, last := events[..|events| - 1], events[|events| - 1];
      Claimants(before) + (if last.Claim? then [last.worker] else [])
  }

  /** The reference worker w claimed last. */
  function LastClaimed(events: seq<Event>, w: nat): Option<nat> {
    if events == [] then None
    else
      var before, last := events[..|events| - 1], events[|events| - 1];
      if last.Claim? && last.worker == w then Some(|Claimants(before)|) else LastClaimed(before, w)
  }

  /** The references whose own source was asked to warm them, in order: none after an abort. */
  function Asked(external: Option<Error>, events: seq<Event>): seq<nat> {
    if events == [] then []
    else
      var before, last := events[..|events| - 1], events[|events| - 1];
      Asked(external, before)
      + (if last.Claim? && last.origin.Warms? && !Aborted(external, before) then [|Claimants(before)|] else [])
  }

  /**
    The references that were completed, in order: those that need no warm-up because no source of the call
    has one, and those whose warm-up succeeded, as long as nothing was aborted.
   */
  function Completions(c: Call, external: Option<Error>, events: seq<Event>): seq<nat> {
    if events == [] then []
    else
      var before, last := events[..|events| - 1], events[|events| - 1];
      Completions(c, external, before)
      + (if Aborted(external, before) then []
         else if last.Claim? && last.origin.Direct? && !c.sessionWarms then [|Claimants(before)|]
         else if last.WarmOk? && LastClaimed(before, last.worker).Some? then [LastClaimed(before, last.worker).value]
         else [])
  }

  predicate TellsEnough(error: Error) { error.Hub? || error.FetchFailure? }

  /** Why worker w would give its reference up, as long as no worker has: the answer of the source or the cancellation. */
  function Refusal(c: Call, external: Option<Error>, events: seq<Event>, w: nat): Option<Error> {
    if events == [] then None
    else
      var before, last := events[..|events| - 1], events[|events| - 1];
      var cancelled := CancelReason(external, before);
      match last
      case Claim(v, origin) =>
        if v != w then Refusal(c, external, before, w)
        else if cancelled.Some? then cancelled
        else (match origin
          case Unreachable(error) => Some(if TellsEnough(error) then error else FetchFailure(error))
          case Direct => if c.sessionWarms then Some(NO_PHASE_ONE) else None
          case Warms => None)
      case WarmOk(v) => if v != w then Refusal(c, external, before, w) else cancelled
      case WarmFail(v, error) =>
        if v != w then Refusal(c, external, before, w)
        else if TellsEnough(error) || error.AbortError? then Some(error)
        else if cancelled.Some? then cancelled
        else Some(FetchFailure(error))
      case _ => Refusal(c, external, before, w)
  }

  /** What the first worker that reported a failure reported. */
  function FirstReported(c: Call, external: Option<Error>, events: seq<Event>): Option<Error> {
    if events == [] then None
    else
      var before, last := events[..|events| - 1], events[|events| - 1];
      var earlier := FirstReported(c, external, before);
      if earlier.Some? || !last.Reject? then earlier else Refusal(c, external, before, last.worker)
  }

  /** Nobody cancels, every source is reachable and can do its phase 1, and every warm-up succeeds. */
  ghost predicate AllWell(c: Call, external: Option<Error>, events: seq<Event>) {
    external.None? && forall e :: e in events ==> Well(c, e)
  }

  /** No cancellation, no failed warm-up, no source that cannot be reached, and none that cannot warm when the session does. */
  ghost predicate Well(c: Call, e: Event) {
    && !e.Cancel? && !e.WarmFail?
    && (e.Claim? ==> !e.origin.Unreachable? && (e.origin.Direct? ==> !c.sessionWarms))
  }

  /** The counters and lists are what the schedule says. */
  ghost predicate Logged(c: Call, external: Option<Error>, events: seq<Event>, s: State) {
    && s.external == CancelReason(external, events)
    && (s.signal.Some? <==> Aborted(external, events))
    && s.next == |Claimants(events)| && s.claims == Claimants(events)
    && s.touched == Asked(external, events) && s.completed == Completions(c, external, events)
    && forall w: nat :: w < |s.workers| && Holding(s.workers[w]) ==> LastClaimed(events, w) == Some(s.workers[w].ref)
  }

  ghost predicate SomeoneRejects(s: State) {
    exists w: nat :: w < |s.workers| && s.workers[w].Rejecting?
  }

  /** What the schedule so far says about the first failure. */
  ghost predicate Tracks(c: Call, external: Option<Error>, events: seq<Event>, s: State) {
    match FirstReported(c, external, events)
    case Some(error) => s.failures != [] && s.failures[0] == error
    case None =>
      && s.failures == [] && s.signal == s.external
      && forall w: nat :: w < |s.workers| && s.workers[w].Rejecting? ==>
           Refusal(c, external, events, w) == Some(s.workers[w].reason)
  }

  ghost predicate Traced(c: Call, external: Option<Error>, events: seq<Event>, s: State) {
    && Inv(c, s) && Logged(c, external, events, s) && Tracks(c, external, events, s)
    && (AllWell(c, external, events) || s.external.Some? || SomeoneRejects(s) || s.failures != [])
    && (AllWell(c, external, events) ==> s.failures == [] && !SomeoneRejects(s))
  }

  lemma InitTrace(c: Call, external: Option<Error>)
    ensures Traced(c, external, [], Init(c, external))
  {
    InitInv(c, external);
    assert external.None? ==> AllWell(c, external, []);
  }

  lemma AbortedNext(external: Option<Error>, events: seq<Event>, e: Event)
    ensures Aborted(external, events + [e]) <==> Aborted(external, events) || e.Cancel? || e.Reject?
  {
    if i :| 0 <= i < |events| && (events[i].Cancel? || events[i].Reject?) {
      assert (events + [e])[i] == events[i];
    }
    assert (events + [e])[|events|] == e;
  }

  lemma StepLogs(c: Call, external: Option<Error>, events: seq<Event>, s: State, e: Event)
    requires Inv(c, s) && Logged(c, external, events, s) && Enabled(c, s, e)
    ensures Logged(c, external, events + [e], Apply(c, s, e))
  {
    var more := events + [e];
    assert more[..|more| - 1] == events;
    AbortedNext(external, events, e);
  }

  lemma StepTracks(c: Call, external: Option<Error>, events: seq<Event>, s: State, e: Event)
    requires Inv(c, s) && Logged(c, external, events, s) && Tracks(c, external, events, s) && Enabled(c, s, e)
    ensures Tracks(c, external, events + [e], Apply(c, s, e))
  {
    var more := events + [e];
    assert more[..|more| - 1] == events;
  }

  lemma AllWellNext(c: Call, external: Option<Error>, events: seq<Event>, e: Event)
    ensures AllWell(c, external, events + [e]) <==> AllWell(c, external, events) && Well(c, e)
  {
    assert e in events + [e] && forall d :: d in events ==> d in events + [e];
  }

  lemma RejectionStays(c: Call, s: State, e: Event)
    requires Enabled(c, s, e) && (s.external.Some? || SomeoneRejects(s) || s.failures != [])
    ensures Apply(c, s, e).external.Some? || SomeoneRejects(Apply(c, s, e)) || Apply(c, s, e).failures != []
  {
    var t := Apply(c, s, e);
    if w: nat :| w < |s.workers| && s.workers[w].Rejecting? && e != Reject(w) {
      assert t.workers[w] == s.workers[w];
    }
  }

  lemma TroubleStarts(c: Call, s: State, e: Event)
    requires Enabled(c, s, e) && !Well(c, e) && s.signal.None?
    ensures Apply(c, s, e).external.Some? || SomeoneRejects(Apply(c, s, e))
  {
    if e.WarmFail? || e.Claim? {
      assert Apply(c, s, e).workers[e.worker].Rejecting?;
    }
  }

  lemma TroubleStays(c: Call, external: Option<Error>, events: seq<Event>, s: State, e: Event)
    requires Traced(c, external, events, s) && Enabled(c, s, e)
    ensures var t := Apply(c, s, e);
            AllWell(c, external, events + [e]) || t.external.Some? || SomeoneRejects(t) || t.failures != []
  {
    AllWellNext(c, external, events, e);
    if !AllWell(c, external, events) {
      RejectionStays(c, s, e);
    } else if !Well(c, e) {
      NotCancelled(external, events);
      TroubleStarts(c, s, e);
    }
  }

  lemma WellStays(c: Call, external: Option<Error>, events: seq<Event>, s: State, e: Event)
    requires Traced(c, external, events, s) && Enabled(c, s, e) && AllWell(c, external, events + [e])
    ensures Apply(c, s, e).failures == [] && !SomeoneRejects(Apply(c, s, e))
  {
    var t, more := Apply(c, s, e), events + [e];
    AllWellNext(c, external, events, e);
    NotCancelled(external, events);
    assert s.signal.None?;
    forall w: nat | w < |t.workers|
      ensures !t.workers[w].Rejecting?
    {
      assert !s.workers[w].Rejecting?;
    }
  }

  lemma StepKeepsTrace(c: Call, external: Option<Error>, events: seq<Event>, s: State, e: Event)
    requires Traced(c, external, events, s) && Enabled(c, s, e)
    ensures Traced(c, external, events + [e], Apply(c, s, e))
  {
    StepKeepsInv(c, s, e);
    StepLogs(c, external, events, s, e);
    StepTracks(c, external, events, s, e);
    TroubleStays(c, external, events, s, e);
    if AllWell(c, external, events + [e]) {
      WellStays(c, external, events, s, e);
    }
  }

  /** The last event of a run runs after all others. */
  lemma {:induction false} LastStep(c: Call, s: State, events: seq<Event>)
    requires Legal(c, s, events) && events != []
    ensures var before, last := events[..|events| - 1], events[|events| - 1];
            && Legal(c, s, before) && Enabled(c, After(c, s, before), last)
            && After(c, s, events) == Apply(c, After(c, s, before), last)
    decreases |events|
  {
    var before := events[..|events| - 1];
    if before != [] {
      LastStep(c, Apply(c, s, events[0]), events[1..]);
      assert before[1..] == events[1..][..|events| - 2];
    }
  }

  lemma {:induction false} Trace(c: Call, external: Option<Error>, events: seq<Event>)
    requires Legal(c, Init(c, external), events)
    ensures Traced(c, external, events, After(c, Init(c, external), events))
  {
    if events == [] {
      InitTrace(c, external);
    } else {
      var before, last := events[..|events| - 1], events[|events| - 1];
      LastStep(c, Init(c, external), events);
      Trace(c, external, before);
      StepKeepsTrace(c, external, before, After(c, Init(c, external), before), last);
      assert before + [last] == events;
    }
  }

  /**
    In every run: who claimed what, which sources were asked to warm and which references were completed is
    what the answers of the sources say.
   */
  lemma WarmsWhatItClaims(c: Call, external: Option<Error>, events: seq<Event>)
    requires Legal(c, Init(c, external), events)
    ensures var s := After(c, Init(c, external), events);
            && s.claims == Claimants(events) && s.next == |s.claims|
            && s.touched == Asked(external, events)
            && s.completed == Completions(c, external, events)
  {
    Trace(c, external, events);
  }

  /**
    The outcome, read off the schedule: success exactly when nobody cancelled and every source did its
    part; else the first failure reported, as the answer of its source says, or else the caller's reason.
   */
  lemma OutcomeIsScheduled(c: Call, external: Option<Error>, events: seq<Event>)
    requires Legal(c, Init(c, external), events) && After(c, Init(c, external), events).outcome.Some?
    ensures var outcome, first := After(c, Init(c, external), events).outcome.value, FirstReported(c, external, events);
            && (outcome.Done? <==> AllWell(c, external, events))
            && (first.Some? ==> outcome == Throw(first.value))
            && (first.None? && outcome.Throw? ==> CancelReason(external, events) == Some(outcome.error))
  {
    Trace(c, external, events);
    var s := After(c, Init(c, external), events);
    if AllWell(c, external, events) {
      NotCancelled(external, events);
    }
  }

  lemma {:induction false} NotCancelled(external: Option<Error>, events: seq<Event>)
    requires external.None? && forall e :: e in events ==> !e.Cancel?
    ensures CancelReason(external, events).None?
  {
    if events != [] {
      NotCancelled(external, events[..|events| - 1]);
    }
  }

  function Count(claims: seq<nat>, w: nat): nat {
    if claims == [] then 0
    else Count(claims[..|claims| - 1], w) + (if claims[|claims| - 1] == w then 1 else 0)
  }

  /**
    Once the signal is aborted, no source is touched and nothing completes any more, and a worker claims
    at most one more reference, and none if it is in the middle of one.
   */
  lemma {:induction false} StopsAfterAbort(c: Call, s: State, events: seq<Event>, w: nat)
    requires s.signal.Some? && Legal(c, s, events) && w < |s.workers|
    ensures var t := After(c, s, events);
            && t.touched == s.touched && t.completed == s.completed && |t.workers| == |s.workers|
            && Count(t.claims, w) + (if t.workers[w].Idle? then 1 else 0)
               <= Count(s.claims, w) + (if s.workers[w].Idle? then 1 else 0)
    decreases |events|
  {
    if events != [] {
      var t := Apply(c, s, events[0]);
      if events[0].Claim? {
        assert t.claims[..|s.claims|] == s.claims;
      }
      StopsAfterAbort(c, t, events[1..], w);
    }
  }

  function Weight(w: Worker): nat {
    match w case Idle => 1 case Warming(_) => 3 case Rejecting(_, _) => 2 case Stopped(_) => 0
  }

  function TotalWeight(workers: seq<Worker>): nat {
    if workers == [] then 0 else TotalWeight(workers[..|workers| - 1]) + Weight(workers[|workers| - 1])
  }

  /** Unclaimed references, then what the workers still do, then the return and a cancellation. */
  function Measure(c: Call, s: State): nat
    requires WellFormed(c, s)
  {
    3 * (|c.refs| - s.next) + TotalWeight(s.workers)
    + (if s.outcome.None? then 1 else 0) + (if s.external.None? then 1 else 0)
  }

  lemma {:induction false} WeightUpdate(workers: seq<Worker>, w: nat, st: Worker)
    requires w < |workers|
    ensures TotalWeight(workers[w := st]) == TotalWeight(workers) - Weight(workers[w]) + Weight(st)
  {
    var n := |workers| - 1;
    if w < n {
      assert workers[w := st][..n] == workers[..n][w := st];
      WeightUpdate(workers[..n], w, st);
    } else {
      assert workers[w := st][..n] == workers[..n];
    }
  }

  lemma StepShrinksMeasure(c: Call, s: State, e: Event)
    requires Inv(c, s) && Enabled(c, s, e)
    ensures WellFormed(c, Apply(c, s, e)) && Measure(c, Apply(c, s, e)) < Measure(c, s)
  {
    var t := Apply(c, s, e);
    match e
    case Claim(w, origin) =>
      WeightUpdate(s.workers, w, FirstMove(c, s, origin));
    case Leave(w) => WeightUpdate(s.workers, w, t.workers[w]);
    case WarmOk(w) => WeightUpdate(s.workers, w, t.workers[w]);
    case WarmFail(w, _) => WeightUpdate(s.workers, w, t.workers[w]);
    case Reject(w) => WeightUpdate(s.workers, w, t.workers[w]);
    case Cancel(_) =>
    case Return =>
  }

  lemma {:induction false} RunShrinksMeasure(c: Call, s: State, events: seq<Event>)
    requires Inv(c, s) && Legal(c, s, events)
    ensures WellFormed(c, After(c, s, events))
    ensures |events| + Measure(c, After(c, s, events)) <= Measure(c, s)
    decreases |events|
  {
    if events != [] {
      StepKeepsInv(c, s, events[0]);
      StepShrinksMeasure(c, s, events[0]);
      RunShrinksMeasure(c, Apply(c, s, events[0]), events[1..]);
    }
  }

  lemma NextStep(c: Call, s: State) returns (e: Event)
    requires Inv(c, s) && s.outcome.None?
    ensures Enabled(c, s, e) && !e.Cancel?
  {
    if forall w :: 0 <= w < |s.workers| ==> s.workers[w].Stopped? {
      e := Return;
    } else {
      var w: nat :| w < |s.workers| && !s.workers[w].Stopped?;
      e := match s.workers[w]
        case Idle => if s.next < |c.refs| then Claim(w, Warms) else Leave(w)
        case Warming(_) => WarmOk(w)
        case Rejecting(_, _) => Reject(w);
    }
  }

  lemma {:induction false} IdleWeight(n: nat)
    ensures TotalWeight(seq(n, _ => Idle)) == n
  {
    if n > 0 {
      IdleWeight(n - 1);
      assert seq(n, _ => Idle)[..n - 1] == seq(n - 1, _ => Idle);
    }
  }

  /** Every schedule ends within three steps per reference and six more, and it ends by returning. */
  lemma EveryScheduleReturns(c: Call, external: Option<Error>, events: seq<Event>)
    requires Legal(c, Init(c, external), events)
    ensures |events| <= 3 * |c.refs| + 6
    ensures (forall e: Event :: Enabled(c, After(c, Init(c, external), events), e) ==> e.Cancel?) ==>
              After(c, Init(c, external), events).outcome.Some?
  {
    InitInv(c, external);
    RunShrinksMeasure(c, Init(c, external), events);
    RunKeepsInv(c, Init(c, external), events);
    IdleWeight(c.Workers());
    var s := After(c, Init(c, external), events);
    if s.outcome.None? {
      var e := NextStep(c, s);
    }
  }

  // ----- the variables of one call ------------------------------------------------------------

  /** The closure of one call; each method is one continuation of one worker. */
  class PrefetchPool {
    const call: Call
    var workers: seq<Worker>
    var next: nat
    var external: Option<Error>
    var failure: Option<Error>
    var signal: Option<Error>
    var outcome: Option<Outcome>
    var completed: seq<nat>
    ghost var places: seq<Place>
    ghost var claims: seq<nat>
    ghost var touched: seq<nat>
    ghost var failures: seq<Error>

    ghost function View(): State
      reads this
    {
      State(workers, next, places, external, failure, signal, outcome, claims, touched, completed, failures)
    }

    constructor (call: Call, external: Option<Error>)
      ensures this.call == call && View() == Init(call, external)
    {
      this.call := call;
      workers, next := seq(call.Workers(), _ => Idle), 0;
      this.external, failure, signal, outcome := external, None, external, None;
      places, claims, touched, completed, failures := seq(|call.refs|, _ => Unclaimed), [], [], [], [];
    }

    /** Emits the one `complete` of a reference and brings the worker back to the loop head. */
    method Finish(w: nat, i: nat)
      requires w < |workers| && i < |places|
      modifies this
      ensures View() == Completed(old(View()), w, i)
    {
      workers := workers[w := Idle];
      places := places[i := Complete];
      completed := completed + [i];
    }

    method OnClaim(w: nat, origin: Origin)
      requires Enabled(call, View(), Claim(w, origin))
      modifies this
      ensures View() == Apply(call, old(View()), Claim(w, origin))
    {
      var i := next;
      next := next + 1;
      claims := claims + [w];
      if signal.Some? {
        workers, places := workers[w := Rejecting(i, signal.value)], places[i := InHand(w)];
        return;
      }
      match origin {
        case Unreachable(error) =>
          var reason := if error.Hub? || error.FetchFailure? then error else FetchFailure(error);
          workers, places := workers[w := Rejecting(i, reason)], places[i := InHand(w)];
        case Direct =>
          if call.sessionWarms {
            workers, places := workers[w := Rejecting(i, NO_PHASE_ONE)], places[i := InHand(w)];
          } else {
            Finish(w, i);
          }
        case Warms =>
          touched := touched + [i];
          workers, places := workers[w := Warming(i)], places[i := InHand(w)];
      }
    }

    method OnLeave(w: nat)
      requires Enabled(call, View(), Leave(w))
      modifies this
      ensures View() == Apply(call, old(View()), Leave(w))
    {
      workers := workers[w := Stopped(true)];
    }

    method OnWarmOk(w: nat)
      requires Enabled(call, View(), WarmOk(w))
      modifies this
      ensures View() == Apply(call, old(View()), WarmOk(w))
    {
      var i := workers[w].ref;
      if signal.Some? {
        workers := workers[w := Rejecting(i, signal.value)];
      } else {
        Finish(w, i);
      }
    }

    method OnWarmFail(w: nat, error: Error)
      requires Enabled(call, View(), WarmFail(w, error))
      modifies this
      ensures View() == Apply(call, old(View()), WarmFail(w, error))
    {
      workers := workers[w := Rejecting(workers[w].ref, WarmFailure(error, signal))];
    }

    method OnReject(w: nat)
      requires Enabled(call, View(), Reject(w))
      modifies this
      ensures View() == Apply(call, old(View()), Reject(w))
    {
      var reason := workers[w].reason;
      failure := Abort(failure, reason);
      signal := Abort(signal, reason);
      failures := failures + [reason];
      places := places[workers[w].ref := Lost];
      workers := workers[w := Stopped(false)];
    }

    method OnCancel(reason: Error)
      requires Enabled(call, View(), Cancel(reason))
      modifies this
      ensures View() == Apply(call, old(View()), Cancel(reason))
    {
      external := Some(reason);
      signal := Abort(signal, reason);
    }

    method OnReturn()
      requires Enabled(call, View(), Return)
      modifies this
      ensures View() == Apply(call, old(View()), Return)
    {
      outcome := Some(if failure.Some? then Throw(failure.value)
                      else if external.Some? then Throw(external.value)
                      else Done);
    }
  }
}
