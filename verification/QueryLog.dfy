/**
 The asynchronous query-log writer: any number of `Write` callers share one bounded
 channel with a single batching consumer. The first half is a small-step machine in
 which every channel operation and every counter update is one atomic action; the
 second half is the writer object itself, run without interference.
 */
module QueryLog {
  import opened Prelude

  /** Capacity of the row channel. */
  const CAPACITY: nat := 8192

  /** One log row; a zero timestamp stands for the unset time. */
  datatype Row = Row(ts: int, text: string)

  function Stamp(row: Row, now: int): Row {
    if row.ts == 0 then row.(ts := now) else row
  }

  // ---------------------------------------------------------------- small steps

  /** Where one caller of `Write` stands. */
  datatype WriterPc =
    | Idle
    | Entering(row: Row)  // about to run the first select
    | Sent                // the row is in the channel, `queued` not yet incremented
    | Full(row: Row)      // first select fell through, `dropped` not yet incremented
    | Evicting(row: Row)  // `dropped` incremented, about to receive the oldest row
    | Retrying(row: Row)  // about to run the last select
    | Refused(row: Row)   // last select fell through, `dropped` not yet incremented

  /** Where the consumer stands. */
  datatype ConsumerPc =
    | Selecting
    | Appended               // a row was appended, the batch size is to be tested
    | Inserting(rows: seq<Row>)
    | Committed(rows: seq<Row>)  // transaction committed, `flushed` not yet updated
    | Failed(rows: seq<Row>)     // transaction failed, `dropped` not yet updated

  /**
   The last five fields are history: rows handed to `Write`, rows in the order they
   entered the channel, rows committed, rows lost to eviction, and evictions that found
   the channel already empty.
   */
  datatype State = State(
    batchMax: int,
    writers: seq<WriterPc>,
    ch: seq<Row>,
    batch: seq<Row>,
    consumer: ConsumerPc,
    queued: nat,
    flushed: nat,
    dropped: nat,
    handed: nat,
    order: seq<Row>,
    stored: seq<Row>,
    evicted: nat,
    hollow: nat)

  datatype Action =
    | Call(w: nat, row: Row)
    | FirstSelect(w: nat)
    | CountQueued(w: nat)
    | CountFullDrop(w: nat)
    | Evict(w: nat)
    | LastSelect(w: nat)
    | CountRefusal(w: nat)
    | Receive
    | TestBatch
    | Tick
    | Insert(ok: bool)
    | CountFlushed
    | CountFailed

  function Init(writers: nat, batchMax: int): State {
    State(batchMax, seq(writers, _ => Idle), [], [], Selecting, 0, 0, 0, 0, [], [], 0, 0)
  }

  predicate At(s: State, w: nat) { w < |s.writers| }

  predicate Enabled(s: State, a: Action) {
    match a
    case Call(w, _) => At(s, w) && s.writers[w].Idle?
    case FirstSelect(w) => At(s, w) && s.writers[w].Entering?
    case CountQueued(w) => At(s, w) && s.writers[w].Sent?
    case CountFullDrop(w) => At(s, w) && s.writers[w].Full?
    case Evict(w) => At(s, w) && s.writers[w].Evicting?
    case LastSelect(w) => At(s, w) && s.writers[w].Retrying?
    case CountRefusal(w) => At(s, w) && s.writers[w].Refused?
    case Receive => s.consumer.Selecting? && s.ch != []
    case TestBatch => s.consumer.Appended?
    case Tick => s.consumer.Selecting?
    case Insert(_) => s.consumer.Inserting?
    case CountFlushed => s.consumer.Committed?
    case CountFailed => s.consumer.Failed?
  }

  function Move(s: State, w: nat, pc: WriterPc): State
    requires At(s, w)
  {
    s.(writers := s.writers[w := pc])
  }

  /** The row enters the channel. */
  function Enqueue(s: State, row: Row): State {
    s.(ch := s.ch + [row], order := s.order + [row])
  }

  /** `flush`: an empty batch is left alone. */
  function BeginFlush(s: State): State {
    if s.batch == [] then s.(consumer := Selecting)
    else s.(batch := [], consumer := Inserting(s.batch))
  }

  function Apply(s: State, a: Action): State
    requires Enabled(s, a)
  {
    match a
    case Call(w, row) => Move(s, w, Entering(row)).(handed := s.handed + 1)
    case FirstSelect(w) =>
      var row := s.writers[w].row;
      if |s.ch| < CAPACITY then Move(Enqueue(s, row), w, Sent) else Move(s, w, Full(row))
    case CountQueued(w) => Move(s, w, Idle).(queued := s.queued + 1)
    case CountFullDrop(w) => Move(s, w, Evicting(s.writers[w].row)).(dropped := s.dropped + 1)
    case Evict(w) =>
      var s' := Move(s, w, Retrying(s.writers[w].row));
      if s.ch == [] then s'.(hollow := s.hollow + 1)
      else s'.(ch := s.ch[1..], evicted := s.evicted + 1)
    case LastSelect(w) =>
      var row := s.writers[w].row;
      if |s.ch| < CAPACITY then Move(Enqueue(s, row), w, Sent) else Move(s, w, Refused(row))
    case CountRefusal(w) => Move(s, w, Idle).(dropped := s.dropped + 1)
    case Receive => s.(ch := s.ch[1..], batch := s.batch + [s.ch[0]], consumer := Appended)
    case TestBatch => if |s.batch| >= s.batchMax then BeginFlush(s) else s.(consumer := Selecting)
    case Tick => BeginFlush(s)
    case Insert(ok) =>
      var rows := s.consumer.rows;
      if ok then s.(consumer := Committed(rows), stored := s.stored + rows)
      else s.(consumer := Failed(rows))
    case CountFlushed => s.(consumer := Selecting, flushed := s.flushed + |s.consumer.rows|)
    case CountFailed => s.(consumer := Selecting, dropped := s.dropped + |s.consumer.rows|)
  }

  /** Executes a whole interleaving; `None` when some action is not enabled. */
  function Run(s: State, acts: seq<Action>): Option<State>
    decreases |acts|
  {
    if acts == [] then Some(s)
    else if Enabled(s, acts[0]) then Run(Apply(s, acts[0]), acts[1..])
    else None
  }

  // ----------------------------------------------------------------- accounting

  /** One for a caller that still holds its row. */
  function Holds(pc: WriterPc): nat {
    if pc.Idle? || pc.Sent? then 0 else 1
  }

  /** One for a caller that has counted a drop it has not yet carried out. */
  function Owes(pc: WriterPc): nat {
    if pc.Evicting? then 1 else 0
  }

  function Sum(ws: seq<WriterPc>, f: WriterPc -> nat): nat {
    if ws == [] then 0 else Sum(ws[..|ws| - 1], f) + f(ws[|ws| - 1])
  }

  lemma {:induction false} SumUpdate(ws: seq<WriterPc>, f: WriterPc -> nat, w: nat, pc: WriterPc)
    requires w < |ws|
    ensures Sum(ws[w := pc], f) + f(ws[w]) == Sum(ws, f) + f(pc)
    decreases |ws|
  {
    var last := |ws| - 1;
    if w == last {
      assert ws[w := pc][..last] == ws[..last];
    } else {
      SumUpdate(ws[..last], f, w, pc);
      assert ws[w := pc][..last] == ws[..last][w := pc];
    }
  }

  lemma {:induction false} SumZero(ws: seq<WriterPc>, f: WriterPc -> nat)
    requires forall i :: 0 <= i < |ws| ==> f(ws[i]) == 0
    ensures Sum(ws, f) == 0
  {
    if ws != [] {
      SumZero(ws[..|ws| - 1], f);
    }
  }

  function Pending(s: State): nat { Sum(s.writers, Holds) }

  function Owed(s: State): nat { Sum(s.writers, Owes) }

  /** Rows taken out of `batch` by a flush whose outcome is not yet counted. */
  function Uncounted(c: ConsumerPc): seq<Row> {
    match c
    case Inserting(rows) => rows
    case Committed(rows) => rows
    case Failed(rows) => rows
    case _ => []
  }

  /** Rows of a transaction that is still open. */
  function InFlight(c: ConsumerPc): seq<Row> {
    if c.Inserting? then c.rows else []
  }

  /** Everything a row can be in after it entered the channel, oldest first. */
  function Pipeline(s: State): seq<Row> {
    s.stored + InFlight(s.consumer) + s.batch + s.ch
  }

  function Located(s: State): nat {
    Pending(s) + |s.ch| + |s.batch| + |Uncounted(s.consumer)| + s.flushed
  }

  /** The exact books: what the counters miss is one unit per empty eviction, and one per eviction still owed. */
  ghost predicate Balanced(s: State) {
    s.handed + s.hollow + Owed(s) == Located(s) + s.dropped
  }

  ghost predicate Inv(s: State) {
    && Balanced(s)
    && |s.ch| <= CAPACITY
    && Subseq(Pipeline(s), s.order)
    && StoredIsCounted(s)
  }

  lemma {:induction false} MoveSums(s: State, w: nat, pc: WriterPc)
    requires At(s, w)
    ensures Sum(s.writers[w := pc], Holds) + Holds(s.writers[w]) == Pending(s) + Holds(pc)
    ensures Sum(s.writers[w := pc], Owes) + Owes(s.writers[w]) == Owed(s) + Owes(pc)
  {
    SumUpdate(s.writers, Holds, w, pc);
    SumUpdate(s.writers, Owes, w, pc);
  }

  lemma {:induction false} WriterStepKeepsBooks(s: State, a: Action)
    requires Enabled(s, a) && Balanced(s) && |s.ch| <= CAPACITY
    requires !a.Receive? && !a.TestBatch? && !a.Tick? && !a.Insert? && !a.CountFlushed? && !a.CountFailed?
    ensures Balanced(Apply(s, a)) && |Apply(s, a).ch| <= CAPACITY
  {
    MoveSums(s, a.w, Apply(s, a).writers[a.w]);
  }

  lemma {:induction false} StepKeepsBooks(s: State, a: Action)
    requires Enabled(s, a) && Balanced(s) && |s.ch| <= CAPACITY
    ensures Balanced(Apply(s, a)) && |Apply(s, a).ch| <= CAPACITY
  {
    match a {
      case Receive => case TestBatch => case Tick => case Insert(_) =>
      case CountFlushed => case CountFailed =>
      case _ => WriterStepKeepsBooks(s, a);
    }
  }

  lemma {:induction false} EnqueueKeepsOrder(s: State, row: Row)
    requires Subseq(Pipeline(s), s.order)
    ensures Subseq(Pipeline(Enqueue(s, row)), Enqueue(s, row).order)
  {
    SubseqSnoc(Pipeline(s), s.order, row);
    assert Pipeline(Enqueue(s, row)) == Pipeline(s) + [row];
  }

  lemma {:induction false} EvictKeepsOrder(s: State)
    requires Subseq(Pipeline(s), s.order) && s.ch != []
    ensures Subseq(Pipeline(s.(ch := s.ch[1..])), s.order)
  {
    var front := s.stored + InFlight(s.consumer) + s.batch;
    assert Pipeline(s) == front + [s.ch[0]] + s.ch[1..];
    SubseqCut(front, [s.ch[0]], s.ch[1..], s.order);
  }

  lemma {:induction false} FailureKeepsOrder(s: State)
    requires Subseq(Pipeline(s), s.order) && s.consumer.Inserting?
    ensures Subseq(Pipeline(s.(consumer := Failed(s.consumer.rows))), s.order)
  {
    assert Pipeline(s) == s.stored + s.consumer.rows + (s.batch + s.ch);
    SubseqCut(s.stored, s.consumer.rows, s.batch + s.ch, s.order);
    assert Pipeline(s.(consumer := Failed(s.consumer.rows))) == s.stored + (s.batch + s.ch);
  }

  lemma {:induction false} ConsumerStepMovesRows(s: State, a: Action)
    requires Enabled(s, a)
    requires a.Receive? || a.TestBatch? || a.Tick? || a == Insert(true) || a.CountFlushed? || a.CountFailed?
    ensures Pipeline(Apply(s, a)) == Pipeline(s) && Apply(s, a).order == s.order
  {
    var s' := Apply(s, a);
    if a.Receive? {
      assert s'.batch + s'.ch == s.batch + s.ch;
    }
  }

  /** No action reorders rows on their way from the channel to the table. */
  lemma {:induction false} StepKeepsOrder(s: State, a: Action)
    requires Enabled(s, a) && Subseq(Pipeline(s), s.order)
    ensures Subseq(Pipeline(Apply(s, a)), Apply(s, a).order)
  {
    match a {
      case Call(_, _) => case CountQueued(_) => case CountFullDrop(_) => case CountRefusal(_) =>
      case FirstSelect(w) => EnqueueKeepsOrder(s, s.writers[w].row);
      case LastSelect(w) => EnqueueKeepsOrder(s, s.writers[w].row);
      case Evict(_) => if s.ch != [] { EvictKeepsOrder(s); }
      case Insert(ok) => if ok { ConsumerStepMovesRows(s, a); } else { FailureKeepsOrder(s); }
      case _ => ConsumerStepMovesRows(s, a);
    }
  }

  lemma {:induction false} StepKeepsInv(s: State, a: Action)
    requires Inv(s) && Enabled(s, a)
    ensures Inv(Apply(s, a))
  {
    StepKeepsBooks(s, a);
    StepKeepsOrder(s, a);
    StepKeepsStored(s, a);
  }

  /** The table holds what was counted as flushed, and a batch that is committed but not yet counted. */
  predicate StoredIsCounted(s: State) {
    |s.stored| == s.flushed + (if s.consumer.Committed? then |s.consumer.rows| else 0)
  }

  lemma {:induction false} StepKeepsStored(s: State, a: Action)
    requires Enabled(s, a) && StoredIsCounted(s)
    ensures StoredIsCounted(Apply(s, a))
  {
  }

  lemma {:induction false} InitInv(writers: nat, batchMax: int)
    ensures Inv(Init(writers, batchMax))
  {
    var s := Init(writers, batchMax);
    SumZero(s.writers, Holds);
    SumZero(s.writers, Owes);
    assert Pipeline(s) == [];
  }

  lemma {:induction false} RunKeepsInv(s: State, acts: seq<Action>)
    requires Inv(s)
    ensures Run(s, acts).Some? ==> Inv(Run(s, acts).value)
    decreases |acts|
  {
    if acts != [] && Enabled(s, acts[0]) {
      StepKeepsInv(s, acts[0]);
      RunKeepsInv(Apply(s, acts[0]), acts[1..]);
    }
  }

  /**
   Over every interleaving: no row vanishes uncounted, the channel respects its bound and
   rows keep their order. The inequality is an equality exactly when no eviction found the
   channel drained and none is owed.
   */
  lemma {:induction false} NoRowVanishes(writers: nat, batchMax: int, acts: seq<Action>, s: State)
    requires Run(Init(writers, batchMax), acts) == Some(s)
    ensures s.handed <= Located(s) + s.dropped
    ensures s.handed == Located(s) + s.dropped <==> s.hollow == 0 && Owed(s) == 0
    ensures |s.ch| <= 8192
    ensures Subseq(s.stored + InFlight(s.consumer) + s.batch + s.ch, s.order)
    ensures |s.stored| == s.flushed + (if s.consumer.Committed? then |s.consumer.rows| else 0)
  {
    InitInv(writers, batchMax);
    RunKeepsInv(Init(writers, batchMax), acts);
  }

  // ----------------------------------------------------------- the size of a batch

  /** A batch is waiting for rows, is being tested, or has just been taken away. */
  predicate BatchOk(s: State) {
    match s.consumer
    case Selecting => |s.batch| < s.batchMax
    case Appended => 0 < |s.batch| <= s.batchMax
    case _ => s.batch == [] && 0 < |Uncounted(s.consumer)| <= s.batchMax
  }

  lemma {:induction false} StepKeepsBatch(s: State, a: Action)
    requires Enabled(s, a) && 1 <= s.batchMax && BatchOk(s)
    ensures BatchOk(Apply(s, a)) && Apply(s, a).batchMax == s.batchMax
  {
  }

  lemma {:induction false} RunKeepsBatch(s: State, acts: seq<Action>)
    requires 1 <= s.batchMax && BatchOk(s)
    ensures Run(s, acts).Some? ==> BatchOk(Run(s, acts).value) && Run(s, acts).value.batchMax == s.batchMax
    decreases |acts|
  {
    if acts != [] && Enabled(s, acts[0]) {
      StepKeepsBatch(s, acts[0]);
      RunKeepsBatch(Apply(s, acts[0]), acts[1..]);
    }
  }

  /**
   Over every interleaving a batch never outgrows its bound and a waiting consumer holds less than
   that; rows are taken to be stored when the batch has exactly the configured size, or on a tick.
   */
  lemma {:induction false} BatchStaysSmall(writers: nat, batchMax: int, acts: seq<Action>, s: State)
    requires 1 <= batchMax && Run(Init(writers, batchMax), acts) == Some(s)
    ensures |s.batch| <= batchMax && |Uncounted(s.consumer)| <= batchMax
    ensures s.consumer.Selecting? ==> |s.batch| < batchMax
    ensures s.consumer.Appended? ==>
              var s' := Apply(s, TestBatch);
              && (s'.consumer == Inserting(s.batch) && s'.batch == [] <==> |s.batch| == batchMax)
              && (s'.consumer == Selecting && s'.batch == s.batch <==> |s.batch| < batchMax)
    ensures s.consumer.Selecting? && s.batch != [] ==>
              Apply(s, Tick).consumer == Inserting(s.batch) && Apply(s, Tick).batch == []
  {
    RunKeepsBatch(Init(writers, batchMax), acts);
  }

  // -------------------------------------------------- calls that do not interleave

  /** One caller running `Write` from start to end with nobody in between. */
  function WholeWrite(s: State, w: nat, row: Row): seq<Action> {
    if |s.ch| < CAPACITY then [Call(w, row), FirstSelect(w), CountQueued(w)]
    else [Call(w, row), FirstSelect(w), CountFullDrop(w), Evict(w), LastSelect(w), CountQueued(w)]
  }

  /** A complete call, or one action of the consumer. */
  datatype Turn = WriteTurn(w: nat, row: Row) | ConsumerTurn(act: Action)

  predicate TurnEnabled(s: State, t: Turn) {
    match t
    case WriteTurn(w, _) => At(s, w) && s.writers[w].Idle?
    case ConsumerTurn(a) =>
      && Enabled(s, a)
      && (a.Receive? || a.TestBatch? || a.Tick? || a.Insert? || a.CountFlushed? || a.CountFailed?)
  }

  function TurnActions(s: State, t: Turn): seq<Action> {
    match t
    case WriteTurn(w, row) => WholeWrite(s, w, row)
    case ConsumerTurn(a) => [a]
  }

  ghost predicate AllIdle(s: State) {
    forall i :: 0 <= i < |s.writers| ==> s.writers[i].Idle?
  }

  lemma {:induction false} RunConcat(s: State, xs: seq<Action>, ys: seq<Action>)
    ensures Run(s, xs + ys) == if Run(s, xs).Some? then Run(Run(s, xs).value, ys) else None
    decreases |xs|
  {
    if xs == [] {
      assert xs + ys == ys;
    } else {
      assert (xs + ys)[1..] == xs[1..] + ys;
      if Enabled(s, xs[0]) {
        RunConcat(Apply(s, xs[0]), xs[1..], ys);
      }
    }
  }

  lemma {:induction false} RunStep(s: State, a: Action, acts: seq<Action>)
    requires Enabled(s, a)
    ensures Run(s, [a] + acts) == Run(Apply(s, a), acts)
  {
    assert ([a] + acts)[1..] == acts;
  }

  lemma {:induction false} RunThree(s: State, a: Action, b: Action, c: Action)
    requires Enabled(s, a) && Enabled(Apply(s, a), b) && Enabled(Apply(Apply(s, a), b), c)
    ensures Run(s, [a, b, c]) == Some(Apply(Apply(Apply(s, a), b), c))
  {
    RunStep(Apply(Apply(s, a), b), c, []);
    RunStep(Apply(s, a), b, [c] + []);
    RunStep(s, a, [b] + ([c] + []));
    assert [a, b, c] == [a] + ([b] + ([c] + []));
  }

  /** What an undisturbed call does. */
  function Written(s: State, row: Row): State {
    var full := |s.ch| >= CAPACITY;
    var lost := if full then 1 else 0;
    s.(ch := (if full then s.ch[1..] else s.ch) + [row],
       order := s.order + [row],
       queued := s.queued + 1,
       handed := s.handed + 1,
       dropped := s.dropped + lost,
       evicted := s.evicted + lost)
  }

  lemma {:induction false} RoomyWrite(s: State, w: nat, row: Row)
    requires At(s, w) && s.writers[w].Idle? && |s.ch| < CAPACITY
    ensures Run(s, WholeWrite(s, w, row)) == Some(Written(s, row))
  {
    RunThree(s, Call(w, row), FirstSelect(w), CountQueued(w));
    var s1 := Apply(s, Call(w, row));
    assert Apply(Apply(s1, FirstSelect(w)), CountQueued(w)).writers == s.writers;
  }

  /** The caller has counted a drop and is about to evict. */
  function DropCounted(s: State, w: nat, row: Row): State
    requires At(s, w)
  {
    s.(writers := s.writers[w := Evicting(row)], handed := s.handed + 1, dropped := s.dropped + 1)
  }

  lemma {:induction false} FullWriteFirstHalf(s: State, w: nat, row: Row)
    requires At(s, w) && s.writers[w].Idle? && |s.ch| == CAPACITY
    ensures Run(s, [Call(w, row), FirstSelect(w), CountFullDrop(w)]) == Some(DropCounted(s, w, row))
  {
    RunThree(s, Call(w, row), FirstSelect(w), CountFullDrop(w));
    assert s.writers[w := Entering(row)][w := Full(row)][w := Evicting(row)] == s.writers[w := Evicting(row)];
  }

  lemma {:induction false} FullWriteSecondHalf(s: State, w: nat, row: Row)
    requires At(s, w) && s.writers[w].Idle? && |s.ch| == CAPACITY
    ensures Run(DropCounted(s, w, row), [Evict(w), LastSelect(w), CountQueued(w)]) == Some(Written(s, row))
  {
    RunThree(DropCounted(s, w, row), Evict(w), LastSelect(w), CountQueued(w));
    assert s.writers[w := Evicting(row)][w := Retrying(row)][w := Sent][w := Idle] == s.writers;
  }

  lemma {:induction false} FullWrite(s: State, w: nat, row: Row)
    requires At(s, w) && s.writers[w].Idle? && |s.ch| == CAPACITY
    ensures Run(s, WholeWrite(s, w, row)) == Some(Written(s, row))
  {
    var first, second := [Call(w, row), FirstSelect(w), CountFullDrop(w)], [Evict(w), LastSelect(w), CountQueued(w)];
    FullWriteFirstHalf(s, w, row);
    FullWriteSecondHalf(s, w, row);
    RunConcat(s, first, second);
    assert WholeWrite(s, w, row) == first + second;
  }

  /** The small steps of an undisturbed call add up to `Written`. */
  lemma {:induction false} WholeWriteResult(s: State, w: nat, row: Row)
    requires At(s, w) && s.writers[w].Idle? && |s.ch| <= CAPACITY
    ensures Run(s, WholeWrite(s, w, row)) == Some(Written(s, row))
  {
    if |s.ch| < CAPACITY {
      RoomyWrite(s, w, row);
    } else {
      FullWrite(s, w, row);
    }
  }

  /** Executes a schedule in which `Write` calls do not overlap anything. */
  function RunTurns(s: State, ts: seq<Turn>): Option<State>
    decreases |ts|
  {
    if ts == [] then Some(s)
    else if !TurnEnabled(s, ts[0]) then None
    else
      var r := Run(s, TurnActions(s, ts[0]));
      if r.None? then None else RunTurns(r.value, ts[1..])
  }

  lemma {:induction false} UndisturbedFrom(s: State, ts: seq<Turn>)
    requires Inv(s) && AllIdle(s) && s.hollow == 0
    ensures RunTurns(s, ts).Some? ==>
              var r := RunTurns(s, ts).value;
              Inv(r) && AllIdle(r) && r.hollow == 0
    decreases |ts|
  {
    if ts != [] && TurnEnabled(s, ts[0]) {
      TurnKeepsQuiet(s, ts[0]);
      UndisturbedFrom(Run(s, TurnActions(s, ts[0])).value, ts[1..]);
    }
  }

  lemma {:induction false} TurnKeepsQuiet(s: State, t: Turn)
    requires Inv(s) && AllIdle(s) && s.hollow == 0 && TurnEnabled(s, t)
    ensures Run(s, TurnActions(s, t)).Some?
    ensures
      var r := Run(s, TurnActions(s, t)).value;
      Inv(r) && AllIdle(r) && r.hollow == 0
  {
    RunKeepsInv(s, TurnActions(s, t));
    match t {
      case WriteTurn(w, row) => WholeWriteResult(s, w, row);
      case ConsumerTurn(a) => ConsumerTurnRun(s, a);
    }
  }

  lemma {:induction false} ConsumerTurnRun(s: State, a: Action)
    requires TurnEnabled(s, ConsumerTurn(a))
    ensures Run(s, [a]) == Some(Apply(s, a)) && Apply(s, a).writers == s.writers && Apply(s, a).hollow == s.hollow
  {
    assert [a] == [a] + [];
    RunStep(s, a, []);
  }

  /** When calls do not interleave, the books balance to the last row. */
  lemma {:induction false} UndisturbedCallsBalance(writers: nat, batchMax: int, ts: seq<Turn>, s: State)
    requires RunTurns(Init(writers, batchMax), ts) == Some(s)
    ensures s.handed == |s.ch| + |s.batch| + |Uncounted(s.consumer)| + s.flushed + s.dropped
  {
    InitInv(writers, batchMax);
    UndisturbedFrom(Init(writers, batchMax), ts);
    SumZero(s.writers, Holds);
    SumZero(s.writers, Owes);
  }

  // --------------------------------------------------- the inequality can be strict

  /** The state after `k` undisturbed calls by caller 0 on a fresh writer with a huge batch size. */
  lemma {:induction false} Fill(k: nat, row: Row) returns (acts: seq<Action>)
    requires k <= CAPACITY
    ensures
      var s0 := Init(1, CAPACITY + 1);
      Run(s0, acts) == Some(s0.(ch := seq(k, _ => row), order := seq(k, _ => row), queued := k, handed := k))
  {
    var s0 := Init(1, CAPACITY + 1);
    if k == 0 {
      acts := [];
      assert seq(0, _ => row) == [];
    } else {
      var before := Fill(k - 1, row);
      var s := Run(s0, before).value;
      acts := before + WholeWrite(s, 0, row);
      RunConcat(s0, before, WholeWrite(s, 0, row));
      WholeWriteResult(s, 0, row);
      assert seq(k - 1, _ => row) + [row] == seq(k, _ => row);
    }
  }

  /** The consumer empties the channel into its batch. */
  lemma {:induction false} Drain(s: State) returns (acts: seq<Action>)
    requires s.consumer.Selecting? && |s.batch| + |s.ch| < s.batchMax
    ensures Run(s, acts) == Some(s.(ch := [], batch := s.batch + s.ch))
    decreases |s.ch|
  {
    if s.ch == [] {
      acts := [];
      assert s.batch + s.ch == s.batch;
    } else {
      var s1 := Apply(s, Receive);
      var s2 := Apply(s1, TestBatch);
      var rest := Drain(s2);
      acts := [Receive] + ([TestBatch] + rest);
      RunStep(s1, TestBatch, rest);
      RunStep(s, Receive, [TestBatch] + rest);
      assert s2.batch + s2.ch == s.batch + s.ch;
    }
  }

  /**
   Interleaved calls can over-count: a caller sees the channel full and counts a drop, the
   consumer drains the channel, and the eviction then removes nothing.
   */
  lemma {:induction false} OverCountReachable() returns (acts: seq<Action>, s: State)
    ensures Run(Init(1, CAPACITY + 1), acts) == Some(s)
    ensures AllIdle(s) && s.handed < Located(s) + s.dropped
  {
    var row := Row(1, "q");
    var s0 := Init(1, CAPACITY + 1);
    var fill := Fill(CAPACITY, row);
    var full := Run(s0, fill).value;
    FullWriteFirstHalf(full, 0, row);
    var counted := DropCounted(full, 0, row);
    var drain := Drain(counted);
    var drained := Run(counted, drain).value;
    HollowEviction(drained, row);
    var head := [Call(0, row), FirstSelect(0), CountFullDrop(0)];
    var tail := [Evict(0), LastSelect(0), CountQueued(0)];
    RunConcat(counted, drain, tail);
    RunConcat(full, head, drain + tail);
    RunConcat(s0, fill, head + (drain + tail));
    acts := fill + (head + (drain + tail));
    s := Run(drained, tail).value;
    NoRowVanishes(1, CAPACITY + 1, acts, s);
  }

  lemma {:induction false} HollowEviction(s: State, row: Row)
    requires |s.writers| == 1 && s.writers[0] == Evicting(row) && s.ch == []
    ensures Run(s, [Evict(0), LastSelect(0), CountQueued(0)]).Some?
    ensures var r := Run(s, [Evict(0), LastSelect(0), CountQueued(0)]).value; AllIdle(r) && r.hollow == s.hollow + 1
  {
    RunThree(s, Evict(0), LastSelect(0), CountQueued(0));
  }

  // ------------------------------------------------------------- the writer object

  /** The actions one flush performs once a non-empty batch has been taken. */
  function FlushActions(ok: bool): seq<Action> {
    [Insert(ok), if ok then CountFlushed else CountFailed]
  }

  lemma {:induction false} RunTwo(s: State, a: Action, b: Action)
    requires Enabled(s, a) && Enabled(Apply(s, a), b)
    ensures Run(s, [a, b]) == Some(Apply(Apply(s, a), b))
  {
    RunStep(Apply(s, a), b, []);
    RunStep(s, a, [b] + []);
    assert [a, b] == [a] + ([b] + []);
  }

  /** What a flush of a non-empty batch does. */
  function Flushed(s: State, ok: bool): State {
    var rows := s.batch;
    if ok then s.(batch := [], stored := s.stored + rows, flushed := s.flushed + |rows|)
    else s.(batch := [], dropped := s.dropped + |rows|)
  }

  lemma {:induction false} FlushRun(s: State, ok: bool)
    requires Inv(s) && s.consumer.Selecting? && s.batch != []
    ensures Run(BeginFlush(s), FlushActions(ok)) == Some(Flushed(s, ok))
    ensures Inv(Flushed(s, ok))
  {
    RunTwo(BeginFlush(s), Insert(ok), FlushActions(ok)[1]);
    StepKeepsInv(s, Tick);
    RunKeepsInv(BeginFlush(s), FlushActions(ok));
  }

  lemma {:induction false} WrittenIsRun(s: State, row: Row)
    requires Inv(s) && At(s, 0) && s.writers[0].Idle?
    ensures Run(s, WholeWrite(s, 0, row)) == Some(Written(s, row)) && Inv(Written(s, row))
  {
    WholeWriteResult(s, 0, row);
    RunKeepsInv(s, WholeWrite(s, 0, row));
  }

  /** The writer with its real fields; `ok` parameters stand for the outcome of the database transaction. */
  class QueryLogWriter {
    var ch: seq<Row>
    var batch: seq<Row>
    const batchMax: int
    var queued: nat
    var flushed: nat
    var dropped: nat

    ghost var handed: nat
    ghost var order: seq<Row>
    ghost var stored: seq<Row>
    ghost var evicted: nat

    /** The object as a state of the small-step machine with one idle caller. */
    ghost function View(): State
      reads this
    {
      State(batchMax, [Idle], ch, batch, Selecting, queued, flushed, dropped, handed, order, stored, evicted, 0)
    }

    ghost predicate Valid()
      reads this
    {
      Inv(View())
    }

    constructor (batchMax: int)
      ensures Valid() && View() == Init(1, batchMax)
    {
      this.batchMax := batchMax;
      ch, batch, queued, flushed, dropped := [], [], 0, 0, 0;
      handed, order, stored, evicted := 0, [], [], 0;
      new;
      InitInv(1, batchMax);
      assert View() == Init(1, batchMax);
    }

    method Write(row: Row, now: int)
      requires Valid()
      modifies this
      ensures Valid()
      ensures Run(old(View()), WholeWrite(old(View()), 0, Stamp(row, now))) == Some(View())
      ensures ch == (if |old(ch)| < 8192 then old(ch) else old(ch)[1..]) + [Row(if row.ts == 0 then now else row.ts, row.text)]
      ensures queued == old(queued) + 1 && dropped == old(dropped) + (if |old(ch)| < 8192 then 0 else 1)
      ensures batch == old(batch) && stored == old(stored) && flushed == old(flushed)
    {
      var r := Stamp(row, now);
      WrittenIsRun(View(), r);
      Accept(r);
    }

    /** Both selects, the eviction between them and the counters. */
    method Accept(r: Row)
      requires |ch| <= CAPACITY
      modifies this
      ensures View() == Written(old(View()), r)
    {
      if |ch| < CAPACITY {
        ch := ch + [r];
        queued := queued + 1;
      } else {
        dropped := dropped + 1;
        if |ch| > 0 {
          ch := ch[1..];
          evicted := evicted + 1;
        }
        if |ch| < CAPACITY {
          ch := ch + [r];
          queued := queued + 1;
        } else {
          assert false; // without interference the eviction has made room
        }
      }
      handed, order := handed + 1, order + [r];
    }

    /** Takes the batch and inserts it; a failed transaction counts its rows as dropped. */
    method Flush(ok: bool)
      requires Valid()
      modifies this
      ensures Valid()
      ensures old(batch) == [] ==> View() == old(View())
      ensures old(batch) != [] ==> Run(BeginFlush(old(View())), FlushActions(ok)) == Some(View())
      ensures batch == [] && ch == old(ch) && queued == old(queued)
      ensures stored == if ok then old(stored) + old(batch) else old(stored)
      ensures flushed == old(flushed) + (if ok then |old(batch)| else 0)
      ensures dropped == old(dropped) + (if ok then 0 else |old(batch)|)
    {
      if batch == [] {
        return;
      }
      ghost var before := View();
      var rows := batch;
      batch := [];
      if ok {
        stored := stored + rows;
        flushed := flushed + |rows|;
      } else {
        dropped := dropped + |rows|;
      }
      FlushRun(before, ok);
      assert View() == Flushed(before, ok);
    }

    /** One turn of the consumer loop that received a row. */
    method ConsumeOne(ok: bool)
      requires Valid() && ch != []
      modifies this
      ensures Valid()
      ensures
        var s := Apply(Apply(old(View()), Receive), TestBatch);
        if s.consumer.Inserting? then Run(s, FlushActions(ok)) == Some(View()) else View() == s
      ensures ch == old(ch)[1..] && queued == old(queued)
      ensures batch == [] <==> |old(batch)| + 1 >= batchMax
      ensures batch != [] ==>
                && batch == old(batch) + [old(ch)[0]]
                && stored == old(stored) && flushed == old(flushed) && dropped == old(dropped)
      ensures batch == [] ==>
                && stored == (if ok then old(stored) + (old(batch) + [old(ch)[0]]) else old(stored))
                && flushed == old(flushed) + (if ok then |old(batch)| + 1 else 0)
                && dropped == old(dropped) + (if ok then 0 else |old(batch)| + 1)
    {
      ghost var before := View();
      ghost var after := Apply(Apply(before, Receive), TestBatch);
      StepKeepsInv(before, Receive);
      StepKeepsInv(Apply(before, Receive), TestBatch);
      batch := batch + [ch[0]];
      ch := ch[1..];
      if |batch| >= batchMax {
        assert after == BeginFlush(View());
        assert Inv(View()) by {
          assert Pipeline(View()) == Pipeline(Apply(before, Receive));
        }
        Flush(ok);
      } else {
        assert View() == after;
      }
    }
  }
}
