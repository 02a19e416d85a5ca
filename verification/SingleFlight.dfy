/**
 Request coalescing of the answer cache. Each caller is a goroutine inside one call of
 `SingleFlight`; the two critical sections, the return of `fn`, the closing of `done` and
 the follower's select are the atomic actions, and callers interleave freely.
 */
module SingleFlight {
  import opened Prelude

  type Key = string

  /** What `fn` returns; both parts may be nil. */
  datatype Reply = Reply(msg: Option<string>, meta: Option<string>)

  /** A nil meta is replaced by an empty one before anybody sees it. */
  function Normalize(r: Reply): Reply {
    if r.meta.None? then r.(meta := Some("")) else r
  }

  /** A heap-allocated flight; `returned` records the value `fn` produced for it. */
  datatype Flight = Flight(key: Key, leader: nat, returned: Option<Reply>, result: Option<Reply>, closes: nat)

  datatype Pc =
    | Outside
    | Running(flight: nat)   // leader: registered, fn is executing
    | Returned(flight: nat)  // leader: result stored, about to take the lock again
    | Removed(flight: nat)   // leader: unregistered, about to close done
    | Waiting(flight: nat)   // follower: blocked in select
    | Done(flight: nat, result: Reply)
    | Cancelled(flight: nat)

  datatype State = State(callers: seq<Pc>, flights: seq<Flight>, inflight: map<Key, nat>)

  datatype Action =
    | Enter(c: nat, key: Key)
    | FnReturns(c: nat, reply: Reply)
    | Unregister(c: nat)
    | Close(c: nat)
    | Wake(c: nat)
    | Cancel(c: nat)

  function Init(callers: nat): State {
    State(seq(callers, _ => Outside), [], map[])
  }

  /** The caller exists and the flight it refers to, if any, exists. */
  predicate At(s: State, c: nat) {
    && c < |s.callers|
    && (s.callers[c].Outside? || s.callers[c].flight < |s.flights|)
  }

  predicate Enabled(s: State, a: Action) {
    && At(s, a.c)
    && var pc := s.callers[a.c];
       match a
       case Enter(_, _) => pc.Outside?
       case FnReturns(_, _) => pc.Running?
       case Unregister(_) => pc.Returned?
       case Close(_) => pc.Removed? && s.flights[pc.flight].result.Some?
       case Wake(_) => pc.Waiting? && s.flights[pc.flight].closes > 0 && s.flights[pc.flight].result.Some?
       case Cancel(_) => pc.Waiting?
  }

  function Apply(s: State, a: Action): State
    requires Enabled(s, a)
  {
    var pc := s.callers[a.c];
    match a
    case Enter(c, key) =>
      if key in s.inflight then s.(callers := s.callers[c := Waiting(s.inflight[key])])
      else
        var id := |s.flights|;
        State(s.callers[c := Running(id)], s.flights + [Flight(key, c, None, None, 0)], s.inflight[key := id])
    case FnReturns(c, reply) =>
      var f := s.flights[pc.flight].(returned := Some(reply), result := Some(Normalize(reply)));
      s.(callers := s.callers[c := Returned(pc.flight)], flights := s.flights[pc.flight := f])
    case Unregister(c) =>
      s.(callers := s.callers[c := Removed(pc.flight)], inflight := s.inflight - {s.flights[pc.flight].key})
    case Close(c) =>
      var f := s.flights[pc.flight];
      s.(callers := s.callers[c := Done(pc.flight, f.result.value)],
         flights := s.flights[pc.flight := f.(closes := f.closes + 1)])
    case Wake(c) => s.(callers := s.callers[c := Done(pc.flight, s.flights[pc.flight].result.value)])
    case Cancel(c) => s.(callers := s.callers[c := Cancelled(pc.flight)])
  }

  function Run(s: State, acts: seq<Action>): Option<State>
    decreases |acts|
  {
    if acts == [] then Some(s)
    else if Enabled(s, acts[0]) then Run(Apply(s, acts[0]), acts[1..])
    else None
  }

  // ------------------------------------------------------------------ invariant

  /** The leader of flight `f` has registered it and not yet unregistered it. */
  predicate Active(s: State, f: nat)
    requires f < |s.flights|
  {
    var leader := s.flights[f].leader;
    leader < |s.callers| && (s.callers[leader] == Running(f) || s.callers[leader] == Returned(f))
  }

  /** A flight's fields say how far its leader got. */
  predicate FlightOk(s: State, f: nat)
    requires f < |s.flights|
  {
    var fl := s.flights[f];
    && fl.leader < |s.callers|
    && var pc := s.callers[fl.leader];
       && (pc.Running? || pc.Returned? || pc.Removed? || pc.Done?) && pc.flight == f
       && fl.result == (if fl.returned.Some? then Some(Normalize(fl.returned.value)) else None)
       && (fl.result.None? <==> pc.Running?)
       && fl.closes == (if pc.Done? then 1 else 0)
       && (Active(s, f) ==> fl.key in s.inflight && s.inflight[fl.key] == f)
  }

  predicate CallerOk(s: State, c: nat)
    requires c < |s.callers|
  {
    var pc := s.callers[c];
    pc.Outside? ||
    (&& pc.flight < |s.flights|
     && ((pc.Running? || pc.Returned? || pc.Removed?) ==> s.flights[pc.flight].leader == c)
     && (pc.Waiting? ==> s.flights[pc.flight].leader != c)
     && (pc.Done? ==> s.flights[pc.flight].closes == 1 && s.flights[pc.flight].result == Some(pc.result)))
  }

  ghost predicate Inv(s: State) {
    && (forall f :: 0 <= f < |s.flights| ==> FlightOk(s, f))
    && (forall c :: 0 <= c < |s.callers| ==> CallerOk(s, c))
    && (forall k :: k in s.inflight ==>
          && s.inflight[k] < |s.flights|
          && s.flights[s.inflight[k]].key == k
          && Active(s, s.inflight[k]))
  }

  lemma {:induction false} EnterKeepsInv(s: State, c: nat, key: Key)
    requires Inv(s) && Enabled(s, Enter(c, key))
    ensures Inv(Apply(s, Enter(c, key)))
  {
    var s' := Apply(s, Enter(c, key));
    forall f | 0 <= f < |s.flights| ensures FlightOk(s', f) {
      assert FlightOk(s, f);
      assert s'.flights[f] == s.flights[f];
    }
    forall d | 0 <= d < |s.callers| ensures CallerOk(s', d) {
      assert CallerOk(s, d);
    }
    forall k | k in s'.inflight
      ensures s'.inflight[k] < |s'.flights| && s'.flights[s'.inflight[k]].key == k && Active(s', s'.inflight[k])
    {
      if k in s.inflight {
        assert Active(s, s.inflight[k]) && FlightOk(s, s.inflight[k]);
      }
    }
  }

  lemma {:induction false} LeaderStepKeepsInv(s: State, a: Action)
    requires Inv(s) && Enabled(s, a) && (a.FnReturns? || a.Unregister? || a.Close?)
    ensures Inv(Apply(s, a))
  {
    var s' := Apply(s, a);
    var mine := s.callers[a.c].flight;
    assert CallerOk(s, a.c) && FlightOk(s, mine);
    forall f | 0 <= f < |s.flights| ensures FlightOk(s', f) {
      assert FlightOk(s, f);
    }
    forall d | 0 <= d < |s.callers| ensures CallerOk(s', d) {
      assert CallerOk(s, d);
    }
    forall k | k in s'.inflight
      ensures s'.inflight[k] < |s'.flights| && s'.flights[s'.inflight[k]].key == k && Active(s', s'.inflight[k])
    {
      assert Active(s, s.inflight[k]) && FlightOk(s, s.inflight[k]);
    }
  }

  lemma {:induction false} FollowerStepKeepsInv(s: State, a: Action)
    requires Inv(s) && Enabled(s, a) && (a.Wake? || a.Cancel?)
    ensures Inv(Apply(s, a))
  {
    var s' := Apply(s, a);
    assert CallerOk(s, a.c) && FlightOk(s, s.callers[a.c].flight);
    forall f | 0 <= f < |s.flights| ensures FlightOk(s', f) {
      assert FlightOk(s, f);
    }
    forall d | 0 <= d < |s.callers| ensures CallerOk(s', d) {
      assert CallerOk(s, d);
    }
    forall k | k in s'.inflight ensures Active(s', s'.inflight[k]) {
      assert Active(s, s.inflight[k]) && FlightOk(s, s.inflight[k]);
    }
  }

  lemma {:induction false} StepKeepsInv(s: State, a: Action)
    requires Inv(s) && Enabled(s, a)
    ensures Inv(Apply(s, a))
  {
    match a {
      case Enter(c, key) => EnterKeepsInv(s, c, key);
      case Wake(_) => FollowerStepKeepsInv(s, a);
      case Cancel(_) => FollowerStepKeepsInv(s, a);
      case _ => LeaderStepKeepsInv(s, a);
    }
  }

  lemma {:induction false} RunKeepsInv(s: State, acts: seq<Action>)
    requires Inv(s)
    ensures Run(s, acts).Some? ==> Inv(Run(s, acts).value)
    decreases |acts|
  {
    if acts != [] && Enabled(s, acts[0]) {
      StepKeepsInv(s, acts[0]);
      RunKeepsInv(Apply(s, acts[0]), acts[1..]);
    }
  }

  // ------------------------------------------------------------------- theorems

  /** Caller `c` is executing `fn` for `key`. */
  predicate RunsFor(s: State, c: nat, key: Key) {
    && At(s, c)
    && s.callers[c].Running?
    && s.flights[s.callers[c].flight].key == key
  }

  /**
   Over every interleaving: one `fn` per key at a time, every finished caller holds what
   `fn` returned for its own flight, `done` is closed exactly once and only after the
   result is in place, and nothing stays registered without an active leader.
   */
  lemma {:induction false} OneFlightPerKey(callers: nat, acts: seq<Action>, s: State)
    requires Run(Init(callers), acts) == Some(s)
    ensures forall c: nat, d: nat, key :: RunsFor(s, c, key) && RunsFor(s, d, key) ==> c == d
    ensures forall c :: 0 <= c < |s.callers| && s.callers[c].Done? ==>
                          && s.callers[c].flight < |s.flights|
                          && var fl := s.flights[s.callers[c].flight];
                             && fl.closes == 1 && fl.returned.Some?
                             && s.callers[c].result.msg == fl.returned.value.msg
                             && (fl.returned.value.meta.Some? ==> s.callers[c].result.meta == fl.returned.value.meta)
                             && (fl.returned.value.meta.None? ==> s.callers[c].result.meta == Some(""))
    ensures forall f :: 0 <= f < |s.flights| ==>
                          && s.flights[f].leader < |s.callers|
                          && s.flights[f].closes == (if s.callers[s.flights[f].leader].Done? then 1 else 0)
    ensures (forall c :: 0 <= c < |s.callers| ==> !s.callers[c].Running? && !s.callers[c].Returned?) ==> s.inflight == map[]
  {
    assert Inv(Init(callers));
    RunKeepsInv(Init(callers), acts);
    forall c: nat, d: nat, key | RunsFor(s, c, key) && RunsFor(s, d, key)
      ensures c == d
    {
      assert CallerOk(s, c) && CallerOk(s, d);
      assert FlightOk(s, s.callers[c].flight) && FlightOk(s, s.callers[d].flight);
    }
    forall c | 0 <= c < |s.callers| && s.callers[c].Done?
      ensures s.callers[c].flight < |s.flights|
      ensures var fl := s.flights[s.callers[c].flight];
              && fl.closes == 1 && fl.returned.Some?
              && s.callers[c].result.msg == fl.returned.value.msg
              && (fl.returned.value.meta.Some? ==> s.callers[c].result.meta == fl.returned.value.meta)
              && (fl.returned.value.meta.None? ==> s.callers[c].result.meta == Some(""))
    {
      assert CallerOk(s, c);
      assert FlightOk(s, s.callers[c].flight);
    }
    forall f | 0 <= f < |s.flights|
      ensures s.flights[f].leader < |s.callers|
      ensures s.flights[f].closes == (if s.callers[s.flights[f].leader].Done? then 1 else 0)
    {
      assert FlightOk(s, f);
    }
    if s.inflight != map[] {
      var k :| k in s.inflight;
      assert Active(s, s.inflight[k]);
    }
  }

  /** An arriving caller joins exactly the flight that is in progress for its key, and leads a new one when there is none. */
  lemma {:induction false} ArrivalJoinsOrLeads(callers: nat, acts: seq<Action>, s: State, c: nat, key: Key)
    requires Run(Init(callers), acts) == Some(s) && Enabled(s, Enter(c, key))
    ensures
      var s' := Apply(s, Enter(c, key));
      && (forall f: nat :: s'.callers[c] == Waiting(f) <==> f < |s.flights| && s.flights[f].key == key && Active(s, f))
      && (s'.callers[c].Waiting? ==> s'.flights == s.flights)
      && (!s'.callers[c].Waiting? ==> s'.callers[c] == Running(|s.flights|) && s'.flights == s.flights + [Flight(key, c, None, None, 0)])
  {
    assert Inv(Init(callers));
    RunKeepsInv(Init(callers), acts);
    forall f: nat
      ensures f < |s.flights| && s.flights[f].key == key && Active(s, f) ==> key in s.inflight && s.inflight[key] == f
    {
      if f < |s.flights| {
        assert FlightOk(s, f);
      }
    }
  }

  /** Where every caller and every result of a state come from, in terms of the actions so far. */
  ghost predicate Explained(s: State, past: seq<Action>) {
    && (forall c :: 0 <= c < |s.callers| && !s.callers[c].Outside? ==>
          s.callers[c].flight < |s.flights| && Enter(c, s.flights[s.callers[c].flight].key) in past)
    && (forall c :: 0 <= c < |s.callers| && s.callers[c].Cancelled? ==> Cancel(c) in past)
    && (forall f :: 0 <= f < |s.flights| && s.flights[f].returned.Some? ==>
          FnReturns(s.flights[f].leader, s.flights[f].returned.value) in past)
  }

  lemma {:induction false} StepKeepsFlights(s: State, a: Action)
    requires Inv(s) && Enabled(s, a)
    ensures |s.flights| <= |Apply(s, a).flights|
    ensures forall f :: 0 <= f < |s.flights| ==>
                          Apply(s, a).flights[f].key == s.flights[f].key && Apply(s, a).flights[f].leader == s.flights[f].leader
  {
  }

  lemma {:induction false} StepExplainsResults(s: State, past: seq<Action>, a: Action)
    requires Inv(s) && Enabled(s, a) && Explained(s, past)
    ensures
      var s' := Apply(s, a);
      forall f :: 0 <= f < |s'.flights| && s'.flights[f].returned.Some? ==>
                    FnReturns(s'.flights[f].leader, s'.flights[f].returned.value) in past + [a]
  {
    assert CallerOk(s, a.c);
    assert a in past + [a];
  }

  lemma {:induction false} StepKeepsExplained(s: State, past: seq<Action>, a: Action)
    requires Inv(s) && Enabled(s, a) && Explained(s, past)
    ensures Explained(Apply(s, a), past + [a])
  {
    StepKeepsFlights(s, a);
    StepExplainsResults(s, past, a);
    assert a in past + [a];
    var s' := Apply(s, a);
    forall c | 0 <= c < |s'.callers| && !s'.callers[c].Outside?
      ensures s'.callers[c].flight < |s'.flights| && Enter(c, s'.flights[s'.callers[c].flight].key) in past + [a]
      ensures s'.callers[c].Cancelled? ==> Cancel(c) in past + [a]
    {
    }
  }

  lemma {:induction false} RunKeepsExplained(s: State, past: seq<Action>, acts: seq<Action>)
    requires Inv(s) && Explained(s, past)
    ensures Run(s, acts).Some? ==> Explained(Run(s, acts).value, past + acts)
    decreases |acts|
  {
    if acts == [] {
      assert past + acts == past;
    } else if Enabled(s, acts[0]) {
      StepKeepsInv(s, acts[0]);
      StepKeepsExplained(s, past, acts[0]);
      RunKeepsExplained(Apply(s, acts[0]), past + [acts[0]], acts[1..]);
      assert past + [acts[0]] + acts[1..] == past + acts;
    }
  }

  /**
   Over every interleaving a caller that finished asked for the key of the flight whose value it
   holds, that value was returned by a call of `fn` made by the flight's leader, and only a caller
   whose context ended leaves without a value.
   */
  lemma {:induction false} AnswersTheKeyAsked(callers: nat, acts: seq<Action>, s: State, c: nat)
    requires Run(Init(callers), acts) == Some(s) && c < |s.callers|
    ensures s.callers[c].Done? ==>
              && s.callers[c].flight < |s.flights|
              && var fl := s.flights[s.callers[c].flight];
                 && Enter(c, fl.key) in acts && Enter(fl.leader, fl.key) in acts
                 && exists reply :: FnReturns(fl.leader, reply) in acts && fl.returned == Some(reply)
    ensures s.callers[c].Cancelled? ==> Cancel(c) in acts
  {
    assert Inv(Init(callers));
    RunKeepsInv(Init(callers), acts);
    RunKeepsExplained(Init(callers), [], acts);
    assert [] + acts == acts;
    if s.callers[c].Done? {
      OneFlightPerKey(callers, acts, s);
      assert FlightOk(s, s.callers[c].flight);
      var fl := s.flights[s.callers[c].flight];
      assert FnReturns(fl.leader, fl.returned.value) in acts;
    }
  }

  /** A follower is never stranded: its flight is closed, or its leader can take another step. */
  lemma {:induction false} FollowersAreServed(callers: nat, acts: seq<Action>, s: State, c: nat)
    requires Run(Init(callers), acts) == Some(s)
    requires c < |s.callers| && s.callers[c].Waiting?
    ensures s.callers[c].flight < |s.flights|
    ensures
      var leader := s.flights[s.callers[c].flight].leader;
      || Enabled(s, Wake(c))
      || (forall reply :: Enabled(s, FnReturns(leader, reply)))
      || Enabled(s, Unregister(leader))
      || Enabled(s, Close(leader))
  {
    assert Inv(Init(callers));
    RunKeepsInv(Init(callers), acts);
    assert CallerOk(s, c);
    assert FlightOk(s, s.callers[c].flight);
  }

  /** The steps the leader of a flight has before `done` is closed. */
  function StepsToClose(pc: Pc): nat {
    if pc.Running? then 3 else if pc.Returned? then 2 else if pc.Removed? then 1 else 0
  }

  /** The leader's remaining steps and then the wake-up. */
  lemma {:induction false} LeaderFinishes(s: State, c: nat, leader: nat, reply: Reply) returns (more: seq<Action>)
    requires Inv(s) && c < |s.callers| && s.callers[c].Waiting? && s.callers[c].flight < |s.flights|
    requires leader == s.flights[s.callers[c].flight].leader < |s.callers|
    ensures Run(s, more).Some? && c < |Run(s, more).value.callers| && Run(s, more).value.callers[c].Done?
    decreases StepsToClose(s.callers[leader])
  {
    assert CallerOk(s, c) && FlightOk(s, s.callers[c].flight);
    var pc := s.callers[leader];
    var act :=
      if pc.Running? then FnReturns(leader, reply) else if pc.Returned? then Unregister(leader)
      else if pc.Removed? then Close(leader) else Wake(c);
    var rest := [];
    if !pc.Done? {
      StepKeepsInv(s, act);
      rest := LeaderFinishes(Apply(s, act), c, leader, reply);
    }
    more := [act] + rest;
    assert more[1..] == rest;
  }

  /**
   A waiting follower can always finish with a result, whatever `fn` returns, by steps of its leader and its
   own wake-up alone; and it can leave at once when its context ends, which changes nothing for anybody else.
   */
  lemma {:induction false} WaitingCanFinish(callers: nat, acts: seq<Action>, s: State, c: nat, reply: Reply) returns (more: seq<Action>)
    requires Run(Init(callers), acts) == Some(s) && c < |s.callers| && s.callers[c].Waiting?
    ensures Run(s, more).Some? && c < |Run(s, more).value.callers| && Run(s, more).value.callers[c].Done?
    ensures Enabled(s, Cancel(c))
    ensures
      var s' := Apply(s, Cancel(c));
      && s'.callers == s.callers[c := Cancelled(s.callers[c].flight)]
      && s'.flights == s.flights && s'.inflight == s.inflight
  {
    assert Inv(Init(callers));
    RunKeepsInv(Init(callers), acts);
    assert CallerOk(s, c) && FlightOk(s, s.callers[c].flight);
    more := LeaderFinishes(s, c, s.flights[s.callers[c].flight].leader, reply);
  }

  /** What a flight returned never changes, so every caller that joined it gets the same value whenever it wakes. */
  lemma {:induction false} ReturnedIsStable(s: State, acts: seq<Action>, f: nat)
    requires Inv(s) && Run(s, acts).Some? && f < |s.flights|
    ensures f < |Run(s, acts).value.flights|
    ensures Run(s, acts).value.flights[f].key == s.flights[f].key
    ensures s.flights[f].returned.Some? ==> Run(s, acts).value.flights[f].returned == s.flights[f].returned
    decreases |acts|
  {
    if acts != [] {
      StepKeepsInv(s, acts[0]);
      if acts[0].FnReturns? {
        assert CallerOk(s, acts[0].c) && FlightOk(s, s.callers[acts[0].c].flight);
      }
      ReturnedIsStable(Apply(s, acts[0]), acts[1..], f);
    }
  }

  /** A caller that joined a flight leaves it with that flight's value or cancelled, never with another flight's. */
  lemma {:induction false} JoinersKeepTheirFlight(s: State, acts: seq<Action>, c: nat)
    requires Run(s, acts).Some? && c < |s.callers| && !s.callers[c].Outside?
    ensures c < |Run(s, acts).value.callers|
    ensures var pc := Run(s, acts).value.callers[c]; !pc.Outside? && pc.flight == s.callers[c].flight
    decreases |acts|
  {
    if acts != [] {
      JoinersKeepTheirFlight(Apply(s, acts[0]), acts[1..], c);
    }
  }
}
