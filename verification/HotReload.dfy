/**
 Configuration hot reload. API handlers write to the database and then increment a shared
 version; any number of DNS daemons poll the version and re-read the tables one query at a
 time. Every database write, increment, query and installation of a table is one atomic
 action, and all parties interleave freely.
 */
module HotReload {
  import opened Prelude

  datatype Table = Groups | Upstreams | Tenants | Rules | HotDomains | Bindings

  /**
   What a daemon runs with: for each table, how many of all database writes had happened when
   the table was read. Write `w` to table `t` is in force exactly when `w < Get(c, t)`.
   */
  datatype Config = Config(groups: nat, upstreams: nat, tenants: nat, rules: nat, hots: nat, bindings: nat)

  function Get(c: Config, t: Table): nat {
    match t
    case Groups => c.groups
    case Upstreams => c.upstreams
    case Tenants => c.tenants
    case Rules => c.rules
    case HotDomains => c.hots
    case Bindings => c.bindings
  }

  /** An API handler: the writes it has made and not yet announced. */
  datatype Writer = Writer(pending: seq<nat>)

  datatype Pc =
    | Idle
    | Reading(v: int, got: seq<nat>) // groups, upstreams, tenants, rules, hot domains, in this order
    | Installing(v: int, got: seq<nat>, stage: nat) // upstream manager, then split rules, then hot set
    | ReadingBindings(v: int)
    | Finishing(v: int)

  /** `bindingsOk` records whether the bindings query of the latest reload succeeded. */
  datatype Daemon = Daemon(last: int, pc: Pc, applied: Config, bindingsOk: bool)

  /**
   `log[w]` is the table of database write `w`; `bumps[k]` are the writes announced by the
   increment that returned `k + 1`; `silent` are writes whose increment failed.
   */
  datatype State = State(log: seq<Table>, bumps: seq<seq<nat>>, silent: set<nat>, writers: seq<Writer>, daemons: seq<Daemon>)

  datatype Action =
    | Write(a: nat, table: Table)
    | Bump(a: nat)
    | BumpFails(a: nat)
    | Poll(d: nat)
    | ManualReload(d: nat)
    | Query(d: nat, ok: bool)
    | Install(d: nat)
    | QueryBindings(d: nat, ok: bool)
    | Finish(d: nat)

  function Init(writers: nat, daemons: nat): State {
    State([], [], {}, seq(writers, _ => Writer([])), seq(daemons, _ => Daemon(-1, Idle, Config(0, 0, 0, 0, 0, 0), true)))
  }

  /** The version key; zero stands for a key that does not exist yet. */
  function Version(s: State): nat { |s.bumps| }

  predicate Enabled(s: State, act: Action) {
    match act
    case Write(a, _) => a < |s.writers|
    case Bump(a) => a < |s.writers|
    case BumpFails(a) => a < |s.writers|
    case Poll(d) => d < |s.daemons| && s.daemons[d].pc.Idle?
    case ManualReload(d) => d < |s.daemons| && s.daemons[d].pc.Idle?
    case Query(d, _) => d < |s.daemons| && s.daemons[d].pc.Reading? && |s.daemons[d].pc.got| < 5
    case Install(d) => d < |s.daemons| && s.daemons[d].pc.Installing? && |s.daemons[d].pc.got| == 5
    case QueryBindings(d, _) => d < |s.daemons| && s.daemons[d].pc.ReadingBindings?
    case Finish(d) => d < |s.daemons| && s.daemons[d].pc.Finishing?
  }

  function Polled(s: State, dm: Daemon): Daemon {
    var v := Version(s);
    if v == 0 || v == dm.last then dm else dm.(pc := Reading(v, []))
  }

  /** A failed query abandons the reload; the last successful one moves on to installing. */
  function Queried(s: State, dm: Daemon, ok: bool): Daemon
    requires dm.pc.Reading?
  {
    if !ok then dm.(pc := Idle)
    else
      var got := dm.pc.got + [|s.log|];
      dm.(pc := if |got| == 5 then Installing(dm.pc.v, got, 0) else Reading(dm.pc.v, got))
  }

  function Installed(dm: Daemon): Daemon
    requires dm.pc.Installing? && |dm.pc.got| == 5
  {
    var got, v := dm.pc.got, dm.pc.v;
    if dm.pc.stage == 0 then
      dm.(applied := dm.applied.(groups := got[0], upstreams := got[1], tenants := got[2]), pc := Installing(v, got, 1))
    else if dm.pc.stage == 1 then dm.(applied := dm.applied.(rules := got[3]), pc := Installing(v, got, 2))
    else dm.(applied := dm.applied.(hots := got[4]), pc := ReadingBindings(v))
  }

  /** A failed bindings query installs no bindings and is otherwise ignored. */
  function Bound(s: State, dm: Daemon, ok: bool): Daemon
    requires dm.pc.ReadingBindings?
  {
    dm.(applied := dm.applied.(bindings := if ok then |s.log| else 0), bindingsOk := ok, pc := Finishing(dm.pc.v))
  }

  function Apply(s: State, act: Action): State
    requires Enabled(s, act)
  {
    match act
    case Write(a, t) =>
      s.(log := s.log + [t], writers := s.writers[a := Writer(s.writers[a].pending + [|s.log|])])
    case Bump(a) => s.(bumps := s.bumps + [s.writers[a].pending], writers := s.writers[a := Writer([])])
    case BumpFails(a) =>
      s.(silent := s.silent + (set w | w in s.writers[a].pending), writers := s.writers[a := Writer([])])
    case Poll(d) => s.(daemons := s.daemons[d := Polled(s, s.daemons[d])])
    case ManualReload(d) => s.(daemons := s.daemons[d := s.daemons[d].(pc := Reading(s.daemons[d].last, []))])
    case Query(d, ok) => s.(daemons := s.daemons[d := Queried(s, s.daemons[d], ok)])
    case Install(d) => s.(daemons := s.daemons[d := Installed(s.daemons[d])])
    case QueryBindings(d, ok) => s.(daemons := s.daemons[d := Bound(s, s.daemons[d], ok)])
    case Finish(d) => s.(daemons := s.daemons[d := s.daemons[d].(last := s.daemons[d].pc.v, pc := Idle)])
  }

  function Run(s: State, acts: seq<Action>): Option<State>
    decreases |acts|
  {
    if acts == [] then Some(s)
    else if Enabled(s, acts[0]) then Run(Apply(s, acts[0]), acts[1..])
    else None
  }

  // ------------------------------------------------------------------ invariant

  /** Everything announced by the first `v` increments is among the first `n` database writes. */
  ghost predicate Covers(bumps: seq<seq<nat>>, v: int, n: nat) {
    forall k, w :: 0 <= k < v && k < |bumps| && w in bumps[k] ==> w < n
  }

  lemma {:induction false} CoversAppend(bumps: seq<seq<nat>>, more: seq<nat>, v: int, n: nat)
    requires v <= |bumps|
    ensures Covers(bumps + [more], v, n) <==> Covers(bumps, v, n)
  {
    if Covers(bumps + [more], v, n) {
      forall k, w | 0 <= k < v && w in bumps[k] ensures w < n {
        assert (bumps + [more])[k] == bumps[k];
      }
    }
  }

  /** The version a daemon will have reached when the reload in progress ends. */
  function Target(dm: Daemon): int {
    if dm.pc.Idle? then dm.last else dm.pc.v
  }

  /** Whether table `t` already comes from the reload in progress. */
  predicate Renewed(dm: Daemon, t: Table) {
    match dm.pc
    case Installing(_, _, stage) =>
      if t.Rules? then stage > 1 else if t.HotDomains? || t.Bindings? then false else stage > 0
    case ReadingBindings(_) => !t.Bindings?
    case Finishing(_) => true
    case _ => false
  }

  function Got(dm: Daemon): seq<nat> {
    if dm.pc.Reading? || dm.pc.Installing? then dm.pc.got else []
  }

  /** What is in force covers the version reached, and what has been read covers the version aimed at. */
  ghost predicate DaemonOk(bumps: seq<seq<nat>>, dm: Daemon) {
    && dm.last <= Target(dm) <= |bumps|
    && (dm.last < Target(dm) ==> 1 <= Target(dm))
    && (forall t: Table :: !t.Bindings? || dm.bindingsOk ==>
          Covers(bumps, if Renewed(dm, t) then Target(dm) else dm.last, Get(dm.applied, t)))
    && (forall i :: 0 <= i < |Got(dm)| ==> Covers(bumps, Target(dm), Got(dm)[i]))
    && (dm.pc.Installing? ==> |dm.pc.got| == 5 && dm.pc.stage <= 2)
  }

  ghost predicate Inv(s: State) {
    && Covers(s.bumps, |s.bumps|, |s.log|)
    && (forall a, w :: 0 <= a < |s.writers| && w in s.writers[a].pending ==> w < |s.log|)
    && (forall d :: 0 <= d < |s.daemons| ==> DaemonOk(s.bumps, s.daemons[d]))
  }

  lemma {:induction false} WriterStepKeepsInv(s: State, act: Action)
    requires Inv(s) && Enabled(s, act) && (act.Write? || act.BumpFails?)
    ensures Inv(Apply(s, act))
  {
  }

  lemma {:induction false} BumpKeepsDaemon(bumps: seq<seq<nat>>, more: seq<nat>, dm: Daemon)
    requires DaemonOk(bumps, dm)
    ensures DaemonOk(bumps + [more], dm)
  {
    forall t: Table | !t.Bindings? || dm.bindingsOk
      ensures Covers(bumps + [more], if Renewed(dm, t) then Target(dm) else dm.last, Get(dm.applied, t))
    {
      CoversAppend(bumps, more, if Renewed(dm, t) then Target(dm) else dm.last, Get(dm.applied, t));
    }
    forall i | 0 <= i < |Got(dm)| ensures Covers(bumps + [more], Target(dm), Got(dm)[i]) {
      CoversAppend(bumps, more, Target(dm), Got(dm)[i]);
    }
  }

  lemma {:induction false} BumpKeepsInv(s: State, a: nat)
    requires Inv(s) && Enabled(s, Bump(a))
    ensures Inv(Apply(s, Bump(a)))
  {
    var s' := Apply(s, Bump(a));
    forall d | 0 <= d < |s.daemons| ensures DaemonOk(s'.bumps, s'.daemons[d]) {
      BumpKeepsDaemon(s.bumps, s.writers[a].pending, s.daemons[d]);
    }
    forall k, w | 0 <= k < |s'.bumps| && w in s'.bumps[k] ensures w < |s'.log| {
      if k < |s.bumps| {
        assert s'.bumps[k] == s.bumps[k];
      } else {
        assert w in s.writers[a].pending;
      }
    }
  }

  lemma {:induction false} PollKeepsDaemon(s: State, dm: Daemon)
    requires Inv(s) && DaemonOk(s.bumps, dm) && dm.pc.Idle?
    ensures DaemonOk(s.bumps, Polled(s, dm)) && DaemonOk(s.bumps, dm.(pc := Reading(dm.last, [])))
  {
    forall dm' | dm' == Polled(s, dm) || dm' == dm.(pc := Reading(dm.last, []))
      ensures DaemonOk(s.bumps, dm')
    {
      forall t: Table | !t.Bindings? || dm.bindingsOk
        ensures Covers(s.bumps, if Renewed(dm', t) then Target(dm') else dm'.last, Get(dm'.applied, t))
      {
        assert Covers(s.bumps, dm.last, Get(dm.applied, t));
      }
    }
  }

  lemma {:induction false} CoversWeaken(bumps: seq<seq<nat>>, v: int, v': int, n: nat, n': nat)
    requires Covers(bumps, v, n) && v' <= v && n <= n'
    ensures Covers(bumps, v', n')
  {
  }

  lemma {:induction false} QueryKeepsDaemon(s: State, dm: Daemon, ok: bool)
    requires Inv(s) && DaemonOk(s.bumps, dm) && dm.pc.Reading? && |dm.pc.got| < 5
    ensures DaemonOk(s.bumps, Queried(s, dm, ok))
  {
    var dm' := Queried(s, dm, ok);
    CoversWeaken(s.bumps, |s.bumps|, Target(dm), |s.log|, |s.log|);
    forall t: Table | !t.Bindings? || dm.bindingsOk
      ensures Covers(s.bumps, if Renewed(dm', t) then Target(dm') else dm'.last, Get(dm'.applied, t))
    {
      assert Covers(s.bumps, dm.last, Get(dm.applied, t));
    }
    forall i | 0 <= i < |Got(dm')| ensures Covers(s.bumps, Target(dm'), Got(dm')[i]) {
      if i < |dm.pc.got| {
        assert Covers(s.bumps, Target(dm), Got(dm)[i]);
      }
    }
  }

  lemma {:induction false} InstallKeepsDaemon(bumps: seq<seq<nat>>, dm: Daemon)
    requires DaemonOk(bumps, dm) && dm.pc.Installing?
    ensures DaemonOk(bumps, Installed(dm))
  {
    var dm' := Installed(dm);
    var got := dm.pc.got;
    assert forall i :: 0 <= i < 5 ==> Covers(bumps, Target(dm), Got(dm)[i]);
    assert Got(dm) == got;
    forall t: Table | !t.Bindings? || dm.bindingsOk
      ensures Covers(bumps, if Renewed(dm', t) then Target(dm') else dm'.last, Get(dm'.applied, t))
    {
      assert Covers(bumps, if Renewed(dm, t) then Target(dm) else dm.last, Get(dm.applied, t));
      if dm.pc.stage == 0 && (t.Groups? || t.Upstreams? || t.Tenants?) {
        assert Get(dm'.applied, t) == got[if t.Groups? then 0 else if t.Upstreams? then 1 else 2];
      }
    }
  }

  lemma {:induction false} BindingsKeepDaemon(s: State, dm: Daemon, ok: bool)
    requires Inv(s) && DaemonOk(s.bumps, dm) && dm.pc.ReadingBindings?
    ensures DaemonOk(s.bumps, Bound(s, dm, ok))
  {
    var dm' := Bound(s, dm, ok);
    CoversWeaken(s.bumps, |s.bumps|, Target(dm), |s.log|, |s.log|);
    forall t: Table | !t.Bindings? || dm'.bindingsOk
      ensures Covers(s.bumps, if Renewed(dm', t) then Target(dm') else dm'.last, Get(dm'.applied, t))
    {
      if !t.Bindings? {
        assert Covers(s.bumps, Target(dm), Get(dm.applied, t));
      }
    }
  }

  lemma {:induction false} FinishKeepsDaemon(bumps: seq<seq<nat>>, dm: Daemon)
    requires DaemonOk(bumps, dm) && dm.pc.Finishing?
    ensures DaemonOk(bumps, dm.(last := dm.pc.v, pc := Idle))
  {
    forall t: Table | !t.Bindings? || dm.bindingsOk ensures Covers(bumps, dm.pc.v, Get(dm.applied, t)) {
      assert Renewed(dm, t);
    }
  }

  lemma {:induction false} DaemonStepKeepsInv(s: State, act: Action)
    requires Inv(s) && Enabled(s, act) && !act.Write? && !act.Bump? && !act.BumpFails?
    ensures Inv(Apply(s, act))
  {
    var dm := s.daemons[act.d];
    assert DaemonOk(s.bumps, dm);
    match act {
      case Poll(_) => PollKeepsDaemon(s, dm);
      case ManualReload(_) => PollKeepsDaemon(s, dm);
      case Query(_, ok) => QueryKeepsDaemon(s, dm, ok);
      case Install(_) => InstallKeepsDaemon(s.bumps, dm);
      case QueryBindings(_, ok) => BindingsKeepDaemon(s, dm, ok);
      case Finish(_) => FinishKeepsDaemon(s.bumps, dm);
    }
  }

  lemma {:induction false} StepKeepsInv(s: State, act: Action)
    requires Inv(s) && Enabled(s, act)
    ensures Inv(Apply(s, act))
  {
    match act {
      case Write(_, _) => WriterStepKeepsInv(s, act);
      case BumpFails(_) => WriterStepKeepsInv(s, act);
      case Bump(a) => BumpKeepsInv(s, a);
      case _ => DaemonStepKeepsInv(s, act);
    }
  }

  lemma {:induction false} RunKeepsInv(s: State, acts: seq<Action>)
    requires Inv(s)
    ensures Run(s, acts).Some? ==> Inv(Run(s, acts).value)
    decreases |acts|
  {
    if acts != [] && Enabled(s, acts[0]) {
      StepKeepsInv(s, acts[0]);
      RunKeepsInv(Apply(s, acts[0]), acts[1..]);
    }
  }

  // ------------------------------------------------------------------- theorems

  /** Write `w` to its table is in force on the daemon. */
  predicate InForce(s: State, dm: Daemon, w: nat)
    requires w < |s.log|
  {
    w < Get(dm.applied, s.log[w])
  }

  /** A failed bindings query leaves the daemon without any bindings. */
  ghost predicate EmptiedIfFailed(s: State) {
    forall d :: 0 <= d < |s.daemons| && !s.daemons[d].bindingsOk ==> s.daemons[d].applied.bindings == 0
  }

  lemma {:induction false} RunKeepsEmptied(s: State, acts: seq<Action>)
    requires EmptiedIfFailed(s)
    ensures Run(s, acts).Some? ==> EmptiedIfFailed(Run(s, acts).value)
    decreases |acts|
  {
    if acts != [] && Enabled(s, acts[0]) {
      RunKeepsEmptied(Apply(s, acts[0]), acts[1..]);
    }
  }

  /**
   Over every interleaving: a write announced by increment number `n <= last` is in force on the
   daemon, in the middle of a reload as well as between two; for the bindings table exactly when
   the latest bindings query succeeded.
   */
  lemma {:induction false} AnnouncedIsInForce(writers: nat, daemons: nat, acts: seq<Action>, s: State, d: nat, n: nat, w: nat)
    requires Run(Init(writers, daemons), acts) == Some(s)
    requires d < |s.daemons| && 1 <= n <= s.daemons[d].last
    ensures n <= |s.bumps|
    ensures w in s.bumps[n - 1] ==>
              w < |s.log| && (InForce(s, s.daemons[d], w) <==> !s.log[w].Bindings? || s.daemons[d].bindingsOk)
  {
    RunKeepsInv(Init(writers, daemons), acts);
    RunKeepsEmptied(Init(writers, daemons), acts);
    var dm := s.daemons[d];
    assert DaemonOk(s.bumps, dm);
    if w in s.bumps[n - 1] && (!s.log[w].Bindings? || dm.bindingsOk) {
      var t := s.log[w];
      assert Covers(s.bumps, if Renewed(dm, t) then Target(dm) else dm.last, Get(dm.applied, t));
    }
  }

  /** The daemon an action belongs to, if any. */
  predicate Of(act: Action, d: nat) {
    match act
    case Write(_, _) => false
    case Bump(_) => false
    case BumpFails(_) => false
    case _ => act.d == d
  }

  // ------------------------------------------------------------------- progress

  /** A poll starts a reload exactly when the version exists and is not the one last finished; otherwise it changes nothing. */
  lemma {:induction false} PollStartsReloadIff(writers: nat, daemons: nat, acts: seq<Action>, s: State, d: nat)
    requires Run(Init(writers, daemons), acts) == Some(s) && Enabled(s, Poll(d))
    ensures
      var s' := Apply(s, Poll(d));
      && |s'.daemons| == |s.daemons| && s' == s.(daemons := s'.daemons)
      && (forall e :: 0 <= e < |s.daemons| && e != d ==> s'.daemons[e] == s.daemons[e])
      && (s'.daemons[d] == s.daemons[d].(pc := Reading(Version(s), [])) <==> Version(s) != 0 && Version(s) != s.daemons[d].last)
      && (s'.daemons[d] == s.daemons[d] <==> Version(s) == 0 || Version(s) == s.daemons[d].last)
      && s.daemons[d].last <= |s.bumps| == Version(s)
  {
    RunKeepsInv(Init(writers, daemons), acts);
    assert DaemonOk(s.bumps, s.daemons[d]);
  }

  /** The actions of one daemon among those of everybody. */
  function Own(acts: seq<Action>, d: nat): seq<Action> {
    if acts == [] then [] else (if Of(acts[0], d) then [acts[0]] else []) + Own(acts[1..], d)
  }

  /** The number of steps a reload that meets no failure has left. */
  function StepsLeft(pc: Pc): int {
    match pc
    case Idle => 0
    case Reading(_, got) => 10 - |got|
    case Installing(_, _, stage) => 5 - stage
    case ReadingBindings(_) => 2
    case Finishing(_) => 1
  }

  /** The last `n` steps of a reload that meets no failure. */
  function Script(d: nat, n: nat): seq<Action> {
    if n == 0 then []
    else
      [if n > 5 then Query(d, true) else if n > 2 then Install(d) else if n == 2 then QueryBindings(d, true) else Finish(d)]
      + Script(d, n - 1)
  }

  lemma {:induction false} ScriptStep(d: nat, n: nat)
    requires n > 0
    ensures Script(d, n) != [] && Of(Script(d, n)[0], d) && Script(d, n)[1..] == Script(d, n - 1)
    ensures n > 5 ==> Script(d, n)[0] == Query(d, true)
    ensures 2 < n <= 5 ==> Script(d, n)[0] == Install(d)
    ensures n == 2 ==> Script(d, n)[0] == QueryBindings(d, true)
    ensures n == 1 ==> Script(d, n)[0] == Finish(d)
  {
  }

  /** A successful reload written out. */
  function Reload(d: nat): seq<Action> {
    [Query(d, true), Query(d, true), Query(d, true), Query(d, true), Query(d, true),
     Install(d), Install(d), Install(d), QueryBindings(d, true), Finish(d)]
  }

  lemma {:induction false} SecondHalf(d: nat)
    ensures Script(d, 5) == [Install(d), Install(d), Install(d), QueryBindings(d, true), Finish(d)]
  {
    assert Script(d, 2) == [QueryBindings(d, true)] + ([Finish(d)] + Script(d, 0));
    assert Script(d, 4) == [Install(d)] + ([Install(d)] + Script(d, 2));
  }

  lemma {:induction false} ReloadIsScript(d: nat)
    ensures Reload(d) == Script(d, 10)
  {
    SecondHalf(d);
    assert Script(d, 10) == [Query(d, true)] + Script(d, 9);
    assert Script(d, 9) == [Query(d, true)] + ([Query(d, true)] + Script(d, 7));
    assert Script(d, 7) == [Query(d, true)] + ([Query(d, true)] + Script(d, 5));
  }

  /** Daemon `d` is on its way to version `v`, with `n` steps to go. */
  predicate OnItsWay(s: State, d: nat, v: int, n: nat) {
    && d < |s.daemons|
    && var dm := s.daemons[d];
       && StepsLeft(dm.pc) == n && Target(dm) == v
       && (dm.pc.Reading? ==> |dm.pc.got| < 5)
       && (dm.pc.Installing? ==> |dm.pc.got| == 5 && dm.pc.stage <= 2)
       && (dm.pc.Finishing? || dm.pc.Idle? ==> dm.bindingsOk)
  }

  lemma {:induction false} OwnStep(s: State, d: nat, v: int, n: nat)
    requires n > 0 && OnItsWay(s, d, v, n)
    ensures Enabled(s, Script(d, n)[0])
    ensures OnItsWay(Apply(s, Script(d, n)[0]), d, v, n - 1)
  {
    ScriptStep(d, n);
  }

  lemma {:induction false} OthersStep(s: State, act: Action, d: nat, v: int, n: nat)
    requires OnItsWay(s, d, v, n) && Enabled(s, act) && !Of(act, d)
    ensures OnItsWay(Apply(s, act), d, v, n)
  {
  }

  lemma {:induction false} OthersMayInterfere(s: State, acts: seq<Action>, d: nat, v: int, n: nat)
    requires OnItsWay(s, d, v, n) && Run(s, acts).Some? && Own(acts, d) == Script(d, n)
    ensures OnItsWay(Run(s, acts).value, d, v, 0)
    decreases |acts|
  {
    if acts == [] {
      if n > 0 {
        ScriptStep(d, n);
      }
    } else if Of(acts[0], d) {
      assert Own(acts, d)[1..] == Own(acts[1..], d) && Own(acts, d)[0] == acts[0];
      ScriptStep(d, n);
      OwnStep(s, d, v, n);
      OthersMayInterfere(Apply(s, acts[0]), acts[1..], d, v, n - 1);
    } else {
      assert Own(acts, d) == Own(acts[1..], d);
      OthersStep(s, acts[0], d, v, n);
      OthersMayInterfere(Apply(s, acts[0]), acts[1..], d, v, n);
    }
  }

  lemma {:induction false} ScriptIsOwn(d: nat, n: nat)
    ensures Own(Script(d, n), d) == Script(d, n)
  {
    if n > 0 {
      ScriptStep(d, n);
      ScriptIsOwn(d, n - 1);
    }
  }

  /** What daemon `d` has read and installed so far in a reload of its own comes from the database as it is. */
  ghost predicate ReadsAll(s: State, d: nat) {
    && d < |s.daemons|
    && var dm, n := s.daemons[d], |s.log|;
       && (forall i :: 0 <= i < |Got(dm)| ==> Got(dm)[i] == n)
       && (dm.pc.Installing? && dm.pc.stage > 0 ==> dm.applied.groups == dm.applied.upstreams == dm.applied.tenants == n)
       && (dm.pc.Installing? && dm.pc.stage > 1 ==> dm.applied.rules == n)
       && (dm.pc.ReadingBindings? ==> dm.applied == Config(n, n, n, n, n, dm.applied.bindings))
       && (dm.pc.Finishing? || dm.pc.Idle? ==> dm.applied == Config(n, n, n, n, n, n))
  }

  lemma {:induction false} OwnStepReadsAll(s: State, d: nat, v: int, n: nat)
    requires n > 0 && OnItsWay(s, d, v, n) && ReadsAll(s, d)
    requires Enabled(s, Script(d, n)[0])
    ensures ReadsAll(Apply(s, Script(d, n)[0]), d)
  {
    ScriptStep(d, n);
    var dm, dm' := s.daemons[d], Apply(s, Script(d, n)[0]).daemons[d];
    if dm.pc.Reading? || dm.pc.Installing? {
      assert forall i :: 0 <= i < |dm.pc.got| ==> dm.pc.got[i] == Got(dm)[i] == |s.log|;
    }
    forall i | 0 <= i < |Got(dm')| ensures Got(dm')[i] == |s.log| {
      assert Got(dm') == if dm.pc.Reading? then Got(dm) + [|s.log|] else Got(dm);
    }
  }

  lemma {:induction false} ScriptReadsAll(s: State, d: nat, v: int, n: nat)
    requires OnItsWay(s, d, v, n) && ReadsAll(s, d)
    ensures
      var r := Run(s, Script(d, n));
      && r.Some? && OnItsWay(r.value, d, v, 0) && ReadsAll(r.value, d)
      && r.value.log == s.log && r.value.bumps == s.bumps
    decreases n
  {
    if n > 0 {
      ScriptStep(d, n);
      OwnStep(s, d, v, n);
      OwnStepReadsAll(s, d, v, n);
      ScriptReadsAll(Apply(s, Script(d, n)[0]), d, v, n - 1);
    }
  }

  /**
   A reload that nobody disturbs, started by a poll of a new version or by hand, leaves the daemon
   with every table of the database as it is, at the polled version or at the one it had.
   */
  lemma {:induction false} ReloadAloneReadsAll(s: State, d: nat, act: Action)
    requires Enabled(s, act)
    requires act == ManualReload(d) || (act == Poll(d) && Version(s) != 0 && Version(s) != s.daemons[d].last)
    ensures
      var r, n := Run(s, [act] + Reload(d)), |s.log|;
      && r.Some? && d < |r.value.daemons| && r.value.log == s.log
      && r.value.daemons[d] == Daemon(if act.Poll? then Version(s) else s.daemons[d].last, Idle, Config(n, n, n, n, n, n), true)
  {
    var s1 := Apply(s, act);
    ReloadIsScript(d);
    ScriptReadsAll(s1, d, s1.daemons[d].pc.v, 10);
    assert ([act] + Reload(d))[1..] == Reload(d);
  }

  lemma {:induction false} BumpsGrow(s: State, acts: seq<Action>, k: nat)
    requires Run(s, acts).Some? && k < |s.bumps|
    ensures k < |Run(s, acts).value.bumps| && Run(s, acts).value.bumps[k] == s.bumps[k]
    decreases |acts|
  {
    if acts != [] {
      BumpsGrow(Apply(s, acts[0]), acts[1..], k);
    }
  }

  lemma {:induction false} RunConcat(s: State, xs: seq<Action>, ys: seq<Action>)
    ensures Run(s, xs + ys) == if Run(s, xs).Some? then Run(Run(s, xs).value, ys) else None
    decreases |xs|
  {
    if xs == [] {
      assert xs + ys == ys;
    } else {
      assert (xs + ys)[1..] == xs[1..] + ys;
      if Enabled(s, xs[0]) {
        RunConcat(Apply(s, xs[0]), xs[1..], ys);
      }
    }
  }

  /** Database write `w` is in force on daemon `d`. */
  predicate Reached(s: State, d: nat, w: nat) {
    d < |s.daemons| && w < |s.log| && InForce(s, s.daemons[d], w)
  }

  /** Every write announced by the increments of `s` is in force on daemon `d` of `s'`. */
  ghost predicate AllInForce(s: State, s': State, d: nat) {
    forall k, w :: 0 <= k < |s.bumps| && w in s.bumps[k] ==> Reached(s', d, w)
  }

  /**
   A daemon that polls a new version and whose queries succeed ends at that version with every write
   announced up to the poll in force, whatever handlers and other daemons do in between.
   */
  lemma {:induction false} ReloadReachesVersion(writers: nat, daemons: nat, acts: seq<Action>, s: State, d: nat, rest: seq<Action>, s': State)
    requires Run(Init(writers, daemons), acts) == Some(s) && Enabled(s, Poll(d))
    requires Version(s) != 0 && Version(s) != s.daemons[d].last
    requires Run(Apply(s, Poll(d)), rest) == Some(s') && Own(rest, d) == Reload(d)
    ensures d < |s'.daemons| && s'.daemons[d].pc == Idle && s'.daemons[d].last == Version(s)
    ensures AllInForce(s, s', d)
  {
    PollStartsReloadIff(writers, daemons, acts, s, d);
    ReloadIsScript(d);
    var s1 := Apply(s, Poll(d));
    OthersMayInterfere(s1, rest, d, Version(s), 10);
    RunOn(Init(writers, daemons), acts, s, Poll(d), rest);
    forall k, w | 0 <= k < |s.bumps| && w in s.bumps[k] ensures Reached(s', d, w) {
      BumpsGrow(s1, rest, k);
      AnnouncedIsInForce(writers, daemons, acts + ([Poll(d)] + rest), s', d, k + 1, w);
    }
  }

  lemma {:induction false} RunOn(s0: State, acts: seq<Action>, s: State, act: Action, rest: seq<Action>)
    requires Run(s0, acts) == Some(s) && Enabled(s, act)
    ensures Run(s, [act] + rest) == Run(Apply(s, act), rest)
    ensures Run(s0, acts + ([act] + rest)) == Run(Apply(s, act), rest)
  {
    RunConcat(s0, acts, [act] + rest);
    assert ([act] + rest)[1..] == rest;
  }

  /** And such a reload is always possible: none of its steps ever waits for anybody else. */
  lemma {:induction false} ReloadIsPossible(writers: nat, daemons: nat, acts: seq<Action>, s: State, d: nat)
    requires Run(Init(writers, daemons), acts) == Some(s) && Enabled(s, Poll(d))
    requires Version(s) != 0 && Version(s) != s.daemons[d].last
    ensures
      var r := Run(s, [Poll(d)] + Reload(d));
      && r.Some? && d < |r.value.daemons|
      && r.value.daemons[d].last == Version(s) == Version(r.value)
      && AllInForce(s, r.value, d)
  {
    PollStartsReloadIff(writers, daemons, acts, s, d);
    ReloadIsScript(d);
    var s1 := Apply(s, Poll(d));
    ScriptIsOwn(d, 10);
    ScriptReadsAll(s1, d, Version(s), 10);
    RunOn(Init(writers, daemons), acts, s, Poll(d), Reload(d));
    ReloadReachesVersion(writers, daemons, acts, s, d, Reload(d), Run(s1, Reload(d)).value);
  }

  /** In these actions the daemon does nothing but query tables. */
  ghost predicate OnlyQueries(acts: seq<Action>, d: nat) {
    forall i :: 0 <= i < |acts| && Of(acts[i], d) ==> acts[i].Query?
  }

  /** What a daemon keeps while it only reads. */
  predicate SameInForce(s: State, s': State, d: nat) {
    && d < |s.daemons| == |s'.daemons|
    && s'.daemons[d].applied == s.daemons[d].applied && s'.daemons[d].last == s.daemons[d].last
    && s'.daemons[d].bindingsOk == s.daemons[d].bindingsOk && Version(s) <= Version(s')
  }

  lemma {:induction false} ReadingChangesNothing(s: State, acts: seq<Action>, d: nat)
    requires d < |s.daemons| && OnlyQueries(acts, d) && Run(s, acts).Some?
    ensures SameInForce(s, Run(s, acts).value, d)
    decreases |acts|
  {
    if acts != [] {
      assert Of(acts[0], d) ==> acts[0].Query?;
      assert forall i :: 0 <= i < |acts[1..]| ==> acts[1..][i] == acts[i + 1];
      ReadingChangesNothing(Apply(s, acts[0]), acts[1..], d);
    }
  }

  lemma {:induction false} LastMovesWithFinish(s: State, acts: seq<Action>, d: nat)
    requires d < |s.daemons| && Finish(d) !in acts && Run(s, acts).Some?
    ensures d < |Run(s, acts).value.daemons| && Run(s, acts).value.daemons[d].last == s.daemons[d].last
    ensures Version(s) <= Version(Run(s, acts).value)
    decreases |acts|
  {
    if acts != [] {
      assert acts[0] in acts;
      LastMovesWithFinish(Apply(s, acts[0]), acts[1..], d);
    }
  }

  /**
   A reload that a query fails, whatever the others do meanwhile: from its poll to its end the
   running configuration and `last` do not change, and in every later state in which the daemon
   has not finished another reload, a poll starts over with the version of that moment.
   */
  lemma {:induction false} FailedReloadIsRetried(s: State, d: nat, acts: seq<Action>, s1: State, later: seq<Action>, s2: State)
    requires Inv(s) && Enabled(s, Poll(d)) && Apply(s, Poll(d)).daemons[d].pc.Reading?
    requires OnlyQueries(acts, d) && Run(Apply(s, Poll(d)), acts) == Some(s1) && Enabled(s1, Poll(d))
    requires Finish(d) !in later && Run(s1, later) == Some(s2)
    ensures SameInForce(s, s1, d)
    ensures d < |s2.daemons| && s2.daemons[d].last == s.daemons[d].last < Version(s2)
    ensures Enabled(s2, Poll(d)) ==> Apply(s2, Poll(d)).daemons[d].pc == Reading(Version(s2), [])
  {
    assert DaemonOk(s.bumps, s.daemons[d]);
    ReadingChangesNothing(Apply(s, Poll(d)), acts, d);
    LastMovesWithFinish(s1, later, d);
  }

  /** The daemon completes, or has completed, a reload to the current version without bindings. */
  predicate Stuck(s: State, d: nat) {
    && d < |s.daemons|
    && var dm := s.daemons[d];
       && (dm.pc == Finishing(Version(s)) || (dm.pc.Idle? && dm.last == Version(s)))
       && !dm.bindingsOk && dm.applied.bindings == 0
  }

  ghost predicate NoIncrement(acts: seq<Action>, d: nat) {
    forall i :: 0 <= i < |acts| ==> !acts[i].Bump? && acts[i] != ManualReload(d)
  }

  lemma {:induction false} StuckStaysStuck(s: State, acts: seq<Action>, d: nat)
    requires Stuck(s, d) && NoIncrement(acts, d) && Run(s, acts).Some?
    ensures Stuck(Run(s, acts).value, d) && Run(s, acts).value.daemons[d].applied == s.daemons[d].applied
    decreases |acts|
  {
    if acts != [] {
      assert !acts[0].Bump? && acts[0] != ManualReload(d);
      assert forall i :: 0 <= i < |acts[1..]| ==> acts[1..][i] == acts[i + 1];
      StuckStaysStuck(Apply(s, acts[0]), acts[1..], d);
    }
  }

  /**
   A failed bindings query is not retried: the reload counts as complete, and in every later run
   without an increment or a manual reload the daemon keeps its configuration without bindings.
   */
  lemma {:induction false} FailedBindingsAreNotRetried(s: State, d: nat, acts: seq<Action>, s': State)
    requires Enabled(s, QueryBindings(d, false)) && s.daemons[d].pc.v == Version(s) && NoIncrement(acts, d)
    requires Run(Apply(s, QueryBindings(d, false)), acts) == Some(s')
    ensures Stuck(s', d) && s'.daemons[d].applied == s.daemons[d].applied.(bindings := 0)
    ensures Enabled(s', Poll(d)) ==> Apply(s', Poll(d)).daemons[d] == s'.daemons[d]
  {
    StuckStaysStuck(Apply(s, QueryBindings(d, false)), acts, d);
  }

  /** Write `w` is pending with a handler, announced, or silent. */
  ghost predicate Accounted(s: State, w: nat) {
    || (exists a :: 0 <= a < |s.writers| && w in s.writers[a].pending)
    || (exists k :: 0 <= k < |s.bumps| && w in s.bumps[k])
    || w in s.silent
  }

  ghost predicate Traced(s: State) {
    forall w :: 0 <= w < |s.log| ==> Accounted(s, w)
  }

  lemma {:induction false} StepKeepsTrace(s: State, act: Action)
    requires Traced(s) && Enabled(s, act)
    ensures Traced(Apply(s, act))
  {
    var s' := Apply(s, act);
    forall w | 0 <= w < |s'.log| ensures Accounted(s', w) {
      if w < |s.log| {
        assert Accounted(s, w);
      }
      if act.Write? && w == |s.log| {
        assert w in s'.writers[act.a].pending;
      } else if exists k :: 0 <= k < |s.bumps| && w in s.bumps[k] {
        var k :| 0 <= k < |s.bumps| && w in s.bumps[k];
        assert w in s'.bumps[k];
      } else if exists a :: 0 <= a < |s.writers| && w in s.writers[a].pending {
        var a :| 0 <= a < |s.writers| && w in s.writers[a].pending;
        if act.Bump? && act.a == a {
          assert w in s'.bumps[|s.bumps|];
        } else if !(act.BumpFails? && act.a == a) {
          assert w in s'.writers[a].pending;
        }
      }
    }
  }

  lemma {:induction false} RunKeepsTrace(s: State, acts: seq<Action>)
    requires Traced(s)
    ensures Run(s, acts).Some? ==> Traced(Run(s, acts).value)
    decreases |acts|
  {
    if acts != [] && Enabled(s, acts[0]) {
      StepKeepsTrace(s, acts[0]);
      RunKeepsTrace(Apply(s, acts[0]), acts[1..]);
    }
  }

  /** Convergence: with no handler between write and increment and none failed, a daemon at the current version runs the whole database. */
  lemma {:induction false} QuiescentDaemonIsCurrent(writers: nat, daemons: nat, acts: seq<Action>, s: State, d: nat, w: nat)
    requires Run(Init(writers, daemons), acts) == Some(s)
    requires forall a :: 0 <= a < |s.writers| ==> s.writers[a].pending == []
    requires s.silent == {}
    requires d < |s.daemons| && s.daemons[d].last == Version(s)
    requires w < |s.log| && (!s.log[w].Bindings? || s.daemons[d].bindingsOk)
    ensures InForce(s, s.daemons[d], w)
  {
    RunKeepsTrace(Init(writers, daemons), acts);
    assert Accounted(s, w);
    var k :| 0 <= k < |s.bumps| && w in s.bumps[k];
    AnnouncedIsInForce(writers, daemons, acts, s, d, k + 1, w);
  }
}
