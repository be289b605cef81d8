/** The fault-tolerant chunk step both loaders configure: records are read, processed and
    written in chunks of `chunkSize` items, each chunk committed as one transaction; a
    skippable exception skips its record and costs one unit of a step-wide skip budget;
    exceeding the budget, or any other exception, fails the step, rolls back the open chunk
    and keeps every chunk committed before it. */
module ChunkStep {
  import opened Upsert

  /** What a record can raise on its way through read and process. All four are
      RuntimeExceptions in Java. */
  datatype ExceptionKind =
    | Validation     // ValidationException, thrown by an item processor
    | DataAccess     // Spring's DataAccessException, a failed query or statement
    | FlatFileParse  // FlatFileParseException, a line the tokenizer cannot split into the columns
    | OtherRuntime   // any other RuntimeException

  /** What reading and processing one record yields: an item for the writer, a record the
      processor filtered out (it returned null), or an exception. */
  datatype ItemOutcome<T> = Emit(item: T) | Filter | Throw(kind: ExceptionKind)

  /** The `.chunk(n)`, `.skipLimit(m)` and `.skip(...)` settings of a step. */
  datatype StepConfig = StepConfig(chunkSize: nat, skipLimit: nat, skippable: set<ExceptionKind>)

  datatype FailCause = SourceUnavailable | SkipLimitExceeded | NonSkippable(kind: ExceptionKind)

  datatype Status = Running | Completed | Failed(cause: FailCause)

  /** A skip, as reported to a SkipListener: the record's position and what it raised. */
  datatype SkipEvent = SkipEvent(index: nat, kind: ExceptionKind)

  /** The state of a step: items committed so far, items of the open chunk, how many records
      the open chunk has read, the step's skip count, the skips of the open chunk (not yet
      reported) and the skips reported to the skip listener so far. */
  datatype StepRun<T> = StepRun(status: Status, committed: seq<T>, pending: seq<T>, read: nat,
                                skipCount: nat, chunkSkips: seq<SkipEvent>, skips: seq<SkipEvent>)

  predicate ValidConfig(cfg: StepConfig) { cfg.chunkSize > 0 }

  function Start<T>(): StepRun<T> { StepRun(Running, [], [], 0, 0, [], []) }

  /** A skip raised by the reader, a line the tokenizer rejects; the other kinds arise in
      the item processor. */
  predicate ReadSkip(e: SkipEvent) { e.kind == FlatFileParse }

  /** The processor's skips among the given ones, in their order. */
  function ProcessSkips(evs: seq<SkipEvent>): seq<SkipEvent>
  {
    if evs == [] then []
    else
      var e := evs[|evs| - 1];
      ProcessSkips(evs[..|evs| - 1]) + (if ReadSkip(e) then [] else [e])
  }

  /** The reader's skips among the given ones, in their order. */
  function ReadSkips(evs: seq<SkipEvent>): seq<SkipEvent>
  {
    if evs == [] then []
    else
      var e := evs[|evs| - 1];
      ReadSkips(evs[..|evs| - 1]) + (if ReadSkip(e) then [e] else [])
  }

  /** The order in which the skips of a committed chunk reach the listener: after the chunk
      is written, the processor's skips, then the reader's. */
  function Report(evs: seq<SkipEvent>): seq<SkipEvent>
  {
    ProcessSkips(evs) + ReadSkips(evs)
  }

  /** One more record read in the open chunk; a full chunk is committed, and then its skips
      are reported. */
  function CountRead<T>(cfg: StepConfig, run: StepRun<T>): StepRun<T>
  {
    if run.read + 1 == cfg.chunkSize then
      run.(committed := run.committed + run.pending, pending := [], read := 0,
           chunkSkips := [], skips := run.skips + Report(run.chunkSkips))
    else run.(read := run.read + 1)
  }

  /** The step's reaction to the outcome of record `i`. */
  function Advance<T>(cfg: StepConfig, run: StepRun<T>, i: nat, o: ItemOutcome<T>): (r: StepRun<T>)
    ensures !run.status.Running? ==> r == run
    ensures run.committed <= r.committed && run.skips <= r.skips
  {
    if !run.status.Running? then run
    else
      match o
      case Emit(x) => CountRead(cfg, run.(pending := run.pending + [x]))
      case Filter => CountRead(cfg, run)
      case Throw(k) =>
        if k in cfg.skippable && run.skipCount < cfg.skipLimit then
          CountRead(cfg, run.(skipCount := run.skipCount + 1, chunkSkips := run.chunkSkips + [SkipEvent(i, k)]))
        else
          // the open chunk is rolled back: its items and its skips are dropped unreported
          var cause := if k in cfg.skippable then SkipLimitExceeded else NonSkippable(k);
          StepRun(Failed(cause), run.committed, [], 0, run.skipCount, [], run.skips)
  }

  /** The state after the given records. */
  function Fold<T>(cfg: StepConfig, xs: seq<ItemOutcome<T>>): (r: StepRun<T>)
    ensures !r.status.Completed?
    ensures r.status.Failed? ==> r.pending == [] && r.chunkSkips == []
  {
    if xs == [] then Start() else Advance(cfg, Fold(cfg, xs[..|xs| - 1]), |xs| - 1, xs[|xs| - 1])
  }

  /** End of input: the last, possibly short, chunk is committed and its skips reported. */
  function Finish<T>(run: StepRun<T>): StepRun<T>
  {
    if run.status.Running? then
      StepRun(Completed, run.committed + run.pending, [], 0, run.skipCount, [], run.skips + Report(run.chunkSkips))
    else run
  }

  /** The whole step over the records of a file. */
  function Run<T>(cfg: StepConfig, xs: seq<ItemOutcome<T>>): (r: StepRun<T>)
    ensures !r.status.Running? && r.pending == [] && r.chunkSkips == []
    ensures Fold(cfg, xs).committed <= r.committed && Fold(cfg, xs).skips <= r.skips
  {
    Finish(Fold(cfg, xs))
  }

  // ---------------------------------------------------------------------------
  // Reference definitions the step is measured against.
  // ---------------------------------------------------------------------------

  /** The items the processor produced, in input order. */
  function Emitted<T>(xs: seq<ItemOutcome<T>>): seq<T>
  {
    if xs == [] then []
    else Emitted(xs[..|xs| - 1]) + (if xs[|xs| - 1].Emit? then [xs[|xs| - 1].item] else [])
  }

  /** How many records raised an exception. */
  function Throws<T>(xs: seq<ItemOutcome<T>>): nat
  {
    if xs == [] then 0 else Throws(xs[..|xs| - 1]) + (if xs[|xs| - 1].Throw? then 1 else 0)
  }

  /** One skip event per record that raised an exception, in record order; the records are
      numbered from `base`. */
  function SkipLog<T>(xs: seq<ItemOutcome<T>>, base: nat): (r: seq<SkipEvent>)
    ensures |r| == Throws(xs)
  {
    if xs == [] then []
    else
      var o := xs[|xs| - 1];
      SkipLog(xs[..|xs| - 1], base) + (if o.Throw? then [SkipEvent(base + |xs| - 1, o.kind)] else [])
  }

  /** No record fails in the reader. */
  predicate NoReadFailure<T>(xs: seq<ItemOutcome<T>>) {
    forall i | 0 <= i < |xs| :: !(xs[i].Throw? && xs[i].kind == FlatFileParse)
  }

  predicate AllSkippable<T>(cfg: StepConfig, xs: seq<ItemOutcome<T>>) {
    forall i | 0 <= i < |xs| :: xs[i].Throw? ==> xs[i].kind in cfg.skippable
  }

  /** Every exception is skippable and there are no more of them than the skip limit. */
  predicate WithinBudget<T>(cfg: StepConfig, xs: seq<ItemOutcome<T>>) {
    AllSkippable(cfg, xs) && Throws(xs) <= cfg.skipLimit
  }

  /** Record `j` is the one that fails the step. */
  predicate FirstFailure<T>(cfg: StepConfig, xs: seq<ItemOutcome<T>>, j: int) {
    0 <= j < |xs| && WithinBudget(cfg, xs[..j]) && !WithinBudget(cfg, xs[..j + 1])
  }

  /** Why a step fails at the given record. */
  function Cause<T>(cfg: StepConfig, o: ItemOutcome<T>): FailCause {
    if o.Throw? && o.kind !in cfg.skippable then NonSkippable(o.kind) else SkipLimitExceeded
  }

  /** Position of the first record of the chunk that holds record `n`. */
  function ChunkStart(size: nat, n: nat): (c: nat)
    requires size > 0
    ensures c <= n < c + size
  {
    if n < size then 0 else size + ChunkStart(size, n - size)
  }

  /** The skips the listener receives over the given records when every chunk among them
      commits: chunk after chunk, each chunk's skips in `Report` order. */
  function Notices<T>(size: nat, xs: seq<ItemOutcome<T>>): seq<SkipEvent>
    requires size > 0
    decreases |xs|
  {
    if xs == [] then []
    else
      var c := ChunkStart(size, |xs| - 1);
      Notices(size, xs[..c]) + Report(SkipLog(xs[c..], c))
  }

  // ---------------------------------------------------------------------------
  // Lemmas.
  // ---------------------------------------------------------------------------

  lemma {:induction false} ChunkStartNext(size: nat, n: nat)
    requires size > 0
    ensures ChunkStart(size, n + 1) == if n + 1 - ChunkStart(size, n) == size then n + 1 else ChunkStart(size, n)
    decreases n
  {
    if n >= size {
      ChunkStartNext(size, n - size);
    }
  }

  lemma {:induction false} EmittedAppend<T>(a: seq<ItemOutcome<T>>, b: seq<ItemOutcome<T>>)
    ensures Emitted(a + b) == Emitted(a) + Emitted(b)
    decreases |b|
  {
    if b == [] {
      assert a + b == a;
    } else {
      EmittedAppend(a, b[..|b| - 1]);
      assert (a + b)[..|a + b| - 1] == a + b[..|b| - 1];
    }
  }

  lemma {:induction false} ThrowsAppend<T>(a: seq<ItemOutcome<T>>, b: seq<ItemOutcome<T>>)
    ensures Throws(a + b) == Throws(a) + Throws(b)
    decreases |b|
  {
    if b == [] {
      assert a + b == a;
    } else {
      ThrowsAppend(a, b[..|b| - 1]);
      assert (a + b)[..|a + b| - 1] == a + b[..|b| - 1];
    }
  }

  lemma EmittedSplit<T>(xs: seq<ItemOutcome<T>>, c: nat)
    requires c <= |xs|
    ensures Emitted(xs) == Emitted(xs[..c]) + Emitted(xs[c..])
  {
    EmittedAppend(xs[..c], xs[c..]);
    assert xs[..c] + xs[c..] == xs;
  }

  /** The last record, taken off the end. */
  lemma Snoc<T>(ys: seq<T>, o: T, c: nat)
    requires c <= |ys|
    ensures (ys + [o])[..|ys|] == ys && (ys + [o])[|ys|] == o
    ensures (ys + [o])[..c] == ys[..c] && (ys + [o])[c..] == ys[c..] + [o]
    ensures (ys + [o])[..|ys| + 1] == ys + [o] && (ys + [o])[|ys| + 1..] == []
  {
  }

  lemma SnocFacts<T>(cfg: StepConfig, ys: seq<ItemOutcome<T>>, o: ItemOutcome<T>)
    ensures Fold(cfg, ys + [o]) == Advance(cfg, Fold(cfg, ys), |ys|, o)
    ensures Emitted(ys + [o]) == Emitted(ys) + (if o.Emit? then [o.item] else [])
    ensures Throws(ys + [o]) == Throws(ys) + (if o.Throw? then 1 else 0)
    ensures AllSkippable(cfg, ys + [o]) <==> AllSkippable(cfg, ys) && (o.Throw? ==> o.kind in cfg.skippable)
  {
    Snoc(ys, o, 0);
    FoldSnoc(cfg, ys, o);
    EmittedSnoc(ys, o);
    ThrowsSnoc(ys, o);
    AllSkippableSnoc(cfg, ys, o);
  }

  lemma FoldSnoc<T>(cfg: StepConfig, ys: seq<ItemOutcome<T>>, o: ItemOutcome<T>)
    ensures Fold(cfg, ys + [o]) == Advance(cfg, Fold(cfg, ys), |ys|, o)
  {
    Snoc(ys, o, 0);
  }

  /** The state after one more record of the same input. */
  lemma FoldPrefixStep<T>(cfg: StepConfig, xs: seq<ItemOutcome<T>>, i: nat)
    requires i < |xs|
    ensures Fold(cfg, xs[..i + 1]) == Advance(cfg, Fold(cfg, xs[..i]), i, xs[i])
  {
    assert xs[..i + 1] == xs[..i] + [xs[i]];
    FoldSnoc(cfg, xs[..i], xs[i]);
  }

  lemma EmittedSnoc<T>(ys: seq<ItemOutcome<T>>, o: ItemOutcome<T>)
    ensures Emitted(ys + [o]) == Emitted(ys) + (if o.Emit? then [o.item] else [])
  {
    Snoc(ys, o, 0);
  }

  lemma ThrowsSnoc<T>(ys: seq<ItemOutcome<T>>, o: ItemOutcome<T>)
    ensures Throws(ys + [o]) == Throws(ys) + (if o.Throw? then 1 else 0)
  {
    Snoc(ys, o, 0);
  }

  lemma SkipLogSnoc<T>(ys: seq<ItemOutcome<T>>, o: ItemOutcome<T>, base: nat)
    ensures SkipLog(ys + [o], base) == SkipLog(ys, base) + (if o.Throw? then [SkipEvent(base + |ys|, o.kind)] else [])
  {
    Snoc(ys, o, 0);
  }

  lemma AllSkippableSnoc<T>(cfg: StepConfig, ys: seq<ItemOutcome<T>>, o: ItemOutcome<T>)
    ensures AllSkippable(cfg, ys + [o]) <==> AllSkippable(cfg, ys) && (o.Throw? ==> o.kind in cfg.skippable)
  {
    var xs := ys + [o];
    assert forall i | 0 <= i < |ys| :: xs[i] == ys[i];
    assert xs[|ys|] == o;
  }

  /** The state of a running step, described through the records read so far: the items of
      the completed chunks are committed, those of the open chunk are pending. */
  function Shape<T>(cfg: StepConfig, xs: seq<ItemOutcome<T>>): StepRun<T>
    requires ValidConfig(cfg)
  {
    var c := ChunkStart(cfg.chunkSize, |xs|);
    StepRun(Running, Emitted(xs[..c]), Emitted(xs[c..]), |xs| - c, Throws(xs), SkipLog(xs[c..], c), Notices(cfg.chunkSize, xs[..c]))
  }

  /** The state of a running step before its chunk counter moves for record `o`. */
  function Absorbed<T>(cfg: StepConfig, ys: seq<ItemOutcome<T>>, o: ItemOutcome<T>, c: nat): StepRun<T>
    requires ValidConfig(cfg) && c == ChunkStart(cfg.chunkSize, |ys|)
  {
    Shape(cfg, ys).(pending := Emitted(ys[c..] + [o]), skipCount := Throws(ys + [o]),
                    chunkSkips := SkipLog(ys[c..] + [o], c))
  }

  /** A record within budget joins the open chunk (or the skip log) of a running step,
      before the chunk counter moves. */
  lemma AbsorbWithin<T>(cfg: StepConfig, ys: seq<ItemOutcome<T>>, o: ItemOutcome<T>)
    requires ValidConfig(cfg)
    requires WithinBudget(cfg, ys + [o])
    requires Fold(cfg, ys) == Shape(cfg, ys)
    ensures Fold(cfg, ys + [o]) == CountRead(cfg, Absorbed(cfg, ys, o, ChunkStart(cfg.chunkSize, |ys|)))
  {
    FoldSnoc(cfg, ys, o);
    ThrowsSnoc(ys, o);
    AllSkippableSnoc(cfg, ys, o);
    AdvanceWithin(cfg, Shape(cfg, ys), |ys|, o);
    AbsorbFields(Shape(cfg, ys), ys, o, ChunkStart(cfg.chunkSize, |ys|));
  }

  /** The fields a record within budget changes, described through the records. */
  lemma AbsorbFields<T>(run: StepRun<T>, ys: seq<ItemOutcome<T>>, o: ItemOutcome<T>, c: nat)
    requires c <= |ys|
    requires run.pending == Emitted(ys[c..]) && run.skipCount == Throws(ys) && run.chunkSkips == SkipLog(ys[c..], c)
    ensures run.(pending := run.pending + (if o.Emit? then [o.item] else []),
                 skipCount := run.skipCount + (if o.Throw? then 1 else 0),
                 chunkSkips := run.chunkSkips + (if o.Throw? then [SkipEvent(|ys|, o.kind)] else []))
            == run.(pending := Emitted(ys[c..] + [o]), skipCount := Throws(ys + [o]),
                    chunkSkips := SkipLog(ys[c..] + [o], c))
  {
    EmittedSnoc(ys[c..], o);
    ThrowsSnoc(ys, o);
    SkipLogFrom(ys, o, c);
  }

  /** The skip log of an open chunk that starts at `c`, with one record more. */
  lemma SkipLogFrom<T>(ys: seq<ItemOutcome<T>>, o: ItemOutcome<T>, c: nat)
    requires c <= |ys|
    ensures SkipLog(ys[c..] + [o], c) == SkipLog(ys[c..], c) + (if o.Throw? then [SkipEvent(|ys|, o.kind)] else [])
  {
    SkipLogSnoc(ys[c..], o, c);
  }

  /** A record beyond the budget, or not skippable, fails a running step. */
  lemma AdvanceFails<T>(cfg: StepConfig, run: StepRun<T>, i: nat, o: ItemOutcome<T>)
    requires run.status == Running
    requires o.Throw? && !(o.kind in cfg.skippable && run.skipCount < cfg.skipLimit)
    ensures Advance(cfg, run, i, o) ==
              StepRun(Failed(if o.kind in cfg.skippable then SkipLimitExceeded else NonSkippable(o.kind)),
                      run.committed, [], 0, run.skipCount, [], run.skips)
  {
  }

  /** A running step takes in a record within budget. */
  lemma AdvanceWithin<T>(cfg: StepConfig, run: StepRun<T>, i: nat, o: ItemOutcome<T>)
    requires run.status == Running
    requires o.Throw? ==> o.kind in cfg.skippable && run.skipCount < cfg.skipLimit
    ensures Advance(cfg, run, i, o) ==
              CountRead(cfg, run.(pending := run.pending + (if o.Emit? then [o.item] else []),
                                  skipCount := run.skipCount + (if o.Throw? then 1 else 0),
                                  chunkSkips := run.chunkSkips + (if o.Throw? then [SkipEvent(i, o.kind)] else [])))
  {
    if !o.Emit? {
      assert run.pending + [] == run.pending;
    }
    if !o.Throw? {
      assert run.chunkSkips + [] == run.chunkSkips;
    }
  }

  /** Moving the chunk counter gives the description of the longer prefix: a chunk that
      fills up is committed. */
  lemma CountReadShape<T>(cfg: StepConfig, ys: seq<ItemOutcome<T>>, o: ItemOutcome<T>, c: nat)
    requires ValidConfig(cfg) && c == ChunkStart(cfg.chunkSize, |ys|)
    ensures CountRead(cfg, Absorbed(cfg, ys, o, c)) == Shape(cfg, ys + [o])
  {
    ChunkStartNext(cfg.chunkSize, |ys|);
    if |ys| + 1 - c == cfg.chunkSize {
      ChunkFills(cfg, ys, o, c);
    } else {
      ChunkStaysOpen(cfg, ys, o, c);
    }
  }

  lemma ChunkFills<T>(cfg: StepConfig, ys: seq<ItemOutcome<T>>, o: ItemOutcome<T>, c: nat)
    requires ValidConfig(cfg) && c == ChunkStart(cfg.chunkSize, |ys|)
    requires ChunkStart(cfg.chunkSize, |ys| + 1) == |ys| + 1 && |ys| + 1 - c == cfg.chunkSize
    ensures CountRead(cfg, Absorbed(cfg, ys, o, c)) == Shape(cfg, ys + [o])
  {
    var xs := ys + [o];
    assert Shape(cfg, xs) ==
      StepRun(Running, Emitted(xs[..|xs|]), Emitted(xs[|xs|..]), 0, Throws(xs), SkipLog(xs[|xs|..], |xs|), Notices(cfg.chunkSize, xs[..|xs|]));
    Snoc(ys, o, c);
    EmittedSplit(xs, c);
    assert Notices(cfg.chunkSize, xs) == Notices(cfg.chunkSize, xs[..c]) + Report(SkipLog(xs[c..], c));
  }

  lemma ChunkStaysOpen<T>(cfg: StepConfig, ys: seq<ItemOutcome<T>>, o: ItemOutcome<T>, c: nat)
    requires ValidConfig(cfg) && c == ChunkStart(cfg.chunkSize, |ys|)
    requires ChunkStart(cfg.chunkSize, |ys| + 1) == c && |ys| + 1 - c != cfg.chunkSize
    ensures CountRead(cfg, Absorbed(cfg, ys, o, c)) == Shape(cfg, ys + [o])
  {
    var xs := ys + [o];
    assert Shape(cfg, xs) ==
      StepRun(Running, Emitted(xs[..c]), Emitted(xs[c..]), |xs| - c, Throws(xs), SkipLog(xs[c..], c), Notices(cfg.chunkSize, xs[..c]));
    Snoc(ys, o, c);
  }

  /** A record that leaves the budget fails the step, and a failed step stays failed. */
  lemma FailsOnSnoc<T>(cfg: StepConfig, ys: seq<ItemOutcome<T>>, o: ItemOutcome<T>)
    requires ValidConfig(cfg)
    requires !WithinBudget(cfg, ys + [o])
    requires WithinBudget(cfg, ys) ==> Fold(cfg, ys) == Shape(cfg, ys)
    requires !WithinBudget(cfg, ys) ==> Fold(cfg, ys).status.Failed?
    ensures Fold(cfg, ys + [o]).status.Failed?
  {
    FoldSnoc(cfg, ys, o);
    ThrowsSnoc(ys, o);
    AllSkippableSnoc(cfg, ys, o);
  }

  /** One record more keeps the description of `RunningShape`. */
  lemma RunningStep<T>(cfg: StepConfig, ys: seq<ItemOutcome<T>>, o: ItemOutcome<T>)
    requires ValidConfig(cfg)
    requires WithinBudget(cfg, ys) ==> Fold(cfg, ys) == Shape(cfg, ys)
    requires !WithinBudget(cfg, ys) ==> Fold(cfg, ys).status.Failed?
    ensures WithinBudget(cfg, ys + [o]) ==> Fold(cfg, ys + [o]) == Shape(cfg, ys + [o])
    ensures !WithinBudget(cfg, ys + [o]) ==> Fold(cfg, ys + [o]).status.Failed?
  {
    if WithinBudget(cfg, ys + [o]) {
      ThrowsSnoc(ys, o);
      AllSkippableSnoc(cfg, ys, o);
      assert WithinBudget(cfg, ys);
      AbsorbWithin(cfg, ys, o);
      CountReadShape(cfg, ys, o, ChunkStart(cfg.chunkSize, |ys|));
    } else {
      FailsOnSnoc(cfg, ys, o);
    }
  }

  /** While the records seen so far are within budget the step is running, has committed
      exactly the items of the completed chunks and holds the rest in the open chunk; once
      they are not, the step has failed. */
  lemma {:induction false} RunningShape<T>(cfg: StepConfig, xs: seq<ItemOutcome<T>>)
    requires ValidConfig(cfg)
    ensures WithinBudget(cfg, xs) ==> Fold(cfg, xs) == Shape(cfg, xs)
    ensures !WithinBudget(cfg, xs) ==> Fold(cfg, xs).status.Failed?
  {
    if xs == [] {
      assert xs[..0] == [] && xs[0..] == [];
    } else {
      var ys, o := xs[..|xs| - 1], xs[|xs| - 1];
      assert xs == ys + [o];
      RunningShape(cfg, ys);
      RunningStep(cfg, ys, o);
    }
  }

  /** A failed step stays failed whatever it is given afterwards. */
  lemma {:induction false} FailureIsFinal<T>(cfg: StepConfig, xs: seq<ItemOutcome<T>>, i: nat)
    requires i <= |xs|
    requires !Fold(cfg, xs[..i]).status.Running?
    ensures Fold(cfg, xs) == Fold(cfg, xs[..i])
    decreases |xs|
  {
    if i < |xs| {
      assert xs[..|xs| - 1][..i] == xs[..i];
      FailureIsFinal(cfg, xs[..|xs| - 1], i);
    } else {
      assert xs[..i] == xs;
    }
  }

  /** The state of a step that record `j` failed. */
  function FailedAt<T>(cfg: StepConfig, xs: seq<ItemOutcome<T>>, j: nat): StepRun<T>
    requires ValidConfig(cfg) && j < |xs|
  {
    var c := ChunkStart(cfg.chunkSize, j);
    StepRun(Failed(Cause(cfg, xs[j])), Emitted(xs[..c]), [], 0, Throws(xs[..j]), [], Notices(cfg.chunkSize, xs[..c]))
  }

  /** The record that fails a step is the last one it reads. */
  lemma FailingStep<T>(cfg: StepConfig, ys: seq<ItemOutcome<T>>, o: ItemOutcome<T>)
    requires ValidConfig(cfg)
    requires WithinBudget(cfg, ys) && !WithinBudget(cfg, ys + [o])
    ensures FirstFailure(cfg, ys + [o], |ys|)
    ensures Fold(cfg, ys + [o]) == FailedAt(cfg, ys + [o], |ys|)
  {
    SnocFacts(cfg, ys, o);
    RunningShape(cfg, ys);
    Snoc(ys, o, ChunkStart(cfg.chunkSize, |ys|));
  }

  /** A failure before the last record is kept. */
  lemma FailedEarlier<T>(cfg: StepConfig, ys: seq<ItemOutcome<T>>, o: ItemOutcome<T>, j: nat)
    requires ValidConfig(cfg)
    requires FirstFailure(cfg, ys, j) && Fold(cfg, ys) == FailedAt(cfg, ys, j)
    ensures FirstFailure(cfg, ys + [o], j) && Fold(cfg, ys + [o]) == FailedAt(cfg, ys + [o], j)
  {
    SnocFacts(cfg, ys, o);
    Snoc(ys, o, j);
    Snoc(ys, o, j + 1);
    Snoc(ys, o, ChunkStart(cfg.chunkSize, j));
  }

  /** A failed step names the record that failed it, has the cause that record implies,
      and has committed exactly the chunks before that record's chunk. */
  lemma {:induction false} FailedShape<T>(cfg: StepConfig, xs: seq<ItemOutcome<T>>)
    requires ValidConfig(cfg)
    requires !WithinBudget(cfg, xs)
    ensures exists j: nat :: FirstFailure(cfg, xs, j) && Fold(cfg, xs) == FailedAt(cfg, xs, j)
  {
    assert WithinBudget(cfg, xs[..0]);
    var ys, o := xs[..|xs| - 1], xs[|xs| - 1];
    assert xs == ys + [o];
    if WithinBudget(cfg, ys) {
      FailingStep(cfg, ys, o);
    } else {
      FailedShape(cfg, ys);
      var j: nat :| FirstFailure(cfg, ys, j) && Fold(cfg, ys) == FailedAt(cfg, ys, j);
      FailedEarlier(cfg, ys, o, j);
    }
  }

  /** Committing the last, possibly short, chunk completes the notices of the whole input. */
  lemma NoticesFinish<T>(size: nat, xs: seq<ItemOutcome<T>>)
    requires size > 0
    ensures var c := ChunkStart(size, |xs|);
            Notices(size, xs[..c]) + Report(SkipLog(xs[c..], c)) == Notices(size, xs)
  {
    var c := ChunkStart(size, |xs|);
    if c == |xs| {
      assert xs[..c] == xs;
      assert Report(SkipLog(xs[c..], c)) == [] by {
        assert xs[c..] == [];
      }
    } else {
      ChunkStartNext(size, |xs| - 1);
      assert ChunkStart(size, |xs| - 1) == c;
    }
  }

  /** The step completes exactly when every exception is skippable and their number is
      within the skip limit; it has then written every item the processor produced, in
      order, and reported every skip, chunk by chunk. */
  lemma RunCompletesIffWithinBudget<T>(cfg: StepConfig, xs: seq<ItemOutcome<T>>)
    requires ValidConfig(cfg)
    ensures Run(cfg, xs).status == Completed <==> WithinBudget(cfg, xs)
    ensures WithinBudget(cfg, xs) ==>
              Run(cfg, xs).committed == Emitted(xs) && Run(cfg, xs).skips == Notices(cfg.chunkSize, xs)
  {
    RunningShape(cfg, xs);
    if WithinBudget(cfg, xs) {
      EmittedSplit(xs, ChunkStart(cfg.chunkSize, |xs|));
      NoticesFinish(cfg.chunkSize, xs);
    }
  }

  lemma {:induction false} SkipLogAppend<T>(a: seq<ItemOutcome<T>>, b: seq<ItemOutcome<T>>, base: nat)
    ensures SkipLog(a + b, base) == SkipLog(a, base) + SkipLog(b, base + |a|)
    decreases |b|
  {
    if b == [] {
      assert a + b == a;
    } else {
      var n := |b| - 1;
      var o := b[n];
      var tail := if o.Throw? then [SkipEvent(base + |a| + n, o.kind)] else [];
      SkipLogAppend(a, b[..n], base);
      assert a + b == (a + b[..n]) + [o];
      assert b == b[..n] + [o];
      calc {
        SkipLog(a + b, base);
        { SkipLogSnoc(a + b[..n], o, base); }
        SkipLog(a + b[..n], base) + tail;
        SkipLog(a, base) + (SkipLog(b[..n], base + |a|) + tail);
        { SkipLogSnoc(b[..n], o, base + |a|); }
        SkipLog(a, base) + SkipLog(b, base + |a|);
      }
    }
  }

  /** A skip log cut at record `c`, whose number is `at`. */
  lemma SkipLogSplit<T>(xs: seq<ItemOutcome<T>>, c: nat, base: nat, at: nat)
    requires c <= |xs| && at == base + c
    ensures SkipLog(xs, base) == SkipLog(xs[..c], base) + SkipLog(xs[c..], at)
  {
    SkipLogAppend(xs[..c], xs[c..], base);
    assert xs[..c] + xs[c..] == xs;
  }

  lemma {:induction false} ProcessReadSplit(evs: seq<SkipEvent>)
    ensures multiset(ProcessSkips(evs)) + multiset(ReadSkips(evs)) == multiset(evs)
  {
    if evs != [] {
      var n := |evs| - 1;
      ProcessReadSplit(evs[..n]);
      assert evs == evs[..n] + [evs[n]];
    }
  }

  /** The listener receives each skip of a committed chunk exactly once. */
  lemma ReportPermutes(evs: seq<SkipEvent>)
    ensures multiset(Report(evs)) == multiset(evs)
  {
    ProcessReadSplit(evs);
  }

  /** Without reader skips a chunk's skips reach the listener in record order. */
  lemma ReportInOrder(evs: seq<SkipEvent>)
    requires forall e | e in evs :: !ReadSkip(e)
    ensures Report(evs) == evs
  {
    ProcessOnly(evs);
  }

  lemma {:induction false} ProcessOnly(evs: seq<SkipEvent>)
    requires forall e | e in evs :: !ReadSkip(e)
    ensures ProcessSkips(evs) == evs && ReadSkips(evs) == []
  {
    if evs != [] {
      var n := |evs| - 1;
      assert evs == evs[..n] + [evs[n]];
      assert evs[n] in evs;
      ProcessOnly(evs[..n]);
    }
  }

  /** Over a completed step the listener receives exactly one notice per record that was
      skipped: the notices are the skip log, reordered within each chunk. */
  lemma {:induction false} NoticesPermutes<T>(size: nat, xs: seq<ItemOutcome<T>>)
    requires size > 0
    ensures multiset(Notices(size, xs)) == multiset(SkipLog(xs, 0))
    ensures |Notices(size, xs)| == Throws(xs)
    decreases |xs|
  {
    if xs != [] {
      var c := ChunkStart(size, |xs| - 1);
      var front, last := SkipLog(xs[..c], 0), SkipLog(xs[c..], c);
      NoticesPermutes(size, xs[..c]);
      ReportPermutes(last);
      SkipLogSplit(xs, c, 0, c);
      calc {
        multiset(Notices(size, xs));
        multiset(Notices(size, xs[..c]) + Report(last));
        multiset(front) + multiset(last);
        multiset(front + last);
        multiset(SkipLog(xs, 0));
      }
    }
    assert |Notices(size, xs)| == |multiset(Notices(size, xs))|;
    assert |SkipLog(xs, 0)| == |multiset(SkipLog(xs, 0))|;
  }

  lemma {:induction false} SkipLogNoRead<T>(xs: seq<ItemOutcome<T>>, base: nat)
    requires NoReadFailure(xs)
    ensures forall e | e in SkipLog(xs, base) :: !ReadSkip(e)
  {
    if xs != [] {
      var n := |xs| - 1;
      assert NoReadFailure(xs[..n]) by {
        forall i | 0 <= i < n ensures !(xs[..n][i].Throw? && xs[..n][i].kind == FlatFileParse) {
          assert xs[..n][i] == xs[i];
        }
      }
      SkipLogNoRead(xs[..n], base);
    }
  }

  /** When no record fails in the reader, the listener receives the skips in record order. */
  lemma {:induction false} NoticesInOrder<T>(size: nat, xs: seq<ItemOutcome<T>>)
    requires size > 0
    requires NoReadFailure(xs)
    ensures Notices(size, xs) == SkipLog(xs, 0)
    decreases |xs|
  {
    if xs != [] {
      var c := ChunkStart(size, |xs| - 1);
      assert NoReadFailure(xs[..c]) by {
        forall i | 0 <= i < c ensures !(xs[..c][i].Throw? && xs[..c][i].kind == FlatFileParse) {
          assert xs[..c][i] == xs[i];
        }
      }
      assert NoReadFailure(xs[c..]) by {
        forall i | 0 <= i < |xs| - c ensures !(xs[c..][i].Throw? && xs[c..][i].kind == FlatFileParse) {
          assert xs[c..][i] == xs[c + i];
        }
      }
      NoticesInOrder(size, xs[..c]);
      SkipLogNoRead(xs[c..], c);
      ReportInOrder(SkipLog(xs[c..], c));
      SkipLogSplit(xs, c, 0, c);
    }
  }

  /** Every item produced is the item of some record. */
  lemma {:induction false} EmittedFrom<T>(xs: seq<ItemOutcome<T>>)
    ensures forall y | y in Emitted(xs) :: exists i | 0 <= i < |xs| :: xs[i] == Emit(y)
  {
    if xs != [] {
      var n := |xs| - 1;
      EmittedFrom(xs[..n]);
      forall y | y in Emitted(xs)
        ensures exists i | 0 <= i < |xs| :: xs[i] == Emit(y)
      {
        if y in Emitted(xs[..n]) {
          var i :| 0 <= i < n && xs[..n][i] == Emit(y);
          assert xs[i] == xs[..n][i];
        } else {
          assert xs[n] == Emit(y);
        }
      }
    }
  }

  /** Whatever a step commits, completed or failed, was produced by one of its records. */
  lemma CommittedFromRecords<T>(cfg: StepConfig, xs: seq<ItemOutcome<T>>)
    requires ValidConfig(cfg)
    ensures forall y | y in Run(cfg, xs).committed :: exists i | 0 <= i < |xs| :: xs[i] == Emit(y)
  {
    if WithinBudget(cfg, xs) {
      RunCompletesIffWithinBudget(cfg, xs);
      EmittedFrom(xs);
    } else {
      FailedShape(cfg, xs);
      var j: nat :| FirstFailure(cfg, xs, j) && Fold(cfg, xs) == FailedAt(cfg, xs, j);
      var c := ChunkStart(cfg.chunkSize, j);
      EmittedFrom(xs[..c]);
      forall y | y in Run(cfg, xs).committed
        ensures exists i | 0 <= i < |xs| :: xs[i] == Emit(y)
      {
        var i :| 0 <= i < c && xs[..c][i] == Emit(y);
        assert xs[i] == xs[..c][i];
      }
    }
  }

  /** A failed step keeps the chunks committed before the failing record's chunk and
      nothing of that chunk; the listener has heard of the skips of the committed chunks
      only. */
  lemma RunFailureKeepsEarlierChunks<T>(cfg: StepConfig, xs: seq<ItemOutcome<T>>)
    requires ValidConfig(cfg)
    requires !WithinBudget(cfg, xs)
    ensures exists j :: FirstFailure(cfg, xs, j) &&
              Run(cfg, xs).status == Failed(Cause(cfg, xs[j])) &&
              Run(cfg, xs).committed == Emitted(xs[..ChunkStart(cfg.chunkSize, j)]) &&
              Run(cfg, xs).skips == Notices(cfg.chunkSize, xs[..ChunkStart(cfg.chunkSize, j)])
  {
    FailedShape(cfg, xs);
  }

  /** The listener hears of no more skips than there were exceptions. */
  lemma SkipsBoundedByThrows<T>(cfg: StepConfig, xs: seq<ItemOutcome<T>>)
    requires ValidConfig(cfg)
    ensures |Run(cfg, xs).skips| <= Throws(xs)
  {
    if WithinBudget(cfg, xs) {
      RunCompletesIffWithinBudget(cfg, xs);
      NoticesPermutes(cfg.chunkSize, xs);
    } else {
      FailedShape(cfg, xs);
      var j: nat :| FirstFailure(cfg, xs, j) && Fold(cfg, xs) == FailedAt(cfg, xs, j);
      var c := ChunkStart(cfg.chunkSize, j);
      assert Run(cfg, xs).skips == Notices(cfg.chunkSize, xs[..c]);
      NoticesPermutes(cfg.chunkSize, xs[..c]);
      ThrowsPrefix(xs, c);
    }
  }

  lemma ThrowsPrefix<T>(xs: seq<ItemOutcome<T>>, c: nat)
    requires c <= |xs|
    ensures Throws(xs[..c]) <= Throws(xs)
  {
    ThrowsAppend(xs[..c], xs[c..]);
    assert xs[..c] + xs[c..] == xs;
  }

  /** The skip-limit boundary: with only skippable exceptions, at most `skipLimit` of them
      complete the step with every produced item written; one more fails it. */
  lemma SkipLimitBoundary<T>(cfg: StepConfig, xs: seq<ItemOutcome<T>>)
    requires ValidConfig(cfg)
    requires AllSkippable(cfg, xs)
    ensures Throws(xs) <= cfg.skipLimit ==>
              Run(cfg, xs).status == Completed && Run(cfg, xs).committed == Emitted(xs)
    ensures Throws(xs) > cfg.skipLimit ==> Run(cfg, xs).status == Failed(SkipLimitExceeded)
  {
    RunCompletesIffWithinBudget(cfg, xs);
    if Throws(xs) > cfg.skipLimit {
      RunFailureKeepsEarlierChunks(cfg, xs);
      var j :| FirstFailure(cfg, xs, j) && Run(cfg, xs).status == Failed(Cause(cfg, xs[j]));
      assert xs[j].Throw? ==> xs[j].kind in cfg.skippable;
    }
  }

  /** A filtered record is not a skip: removing it changes neither the budget nor the
      items written. */
  lemma FilterIsFree<T>(cfg: StepConfig, a: seq<ItemOutcome<T>>, b: seq<ItemOutcome<T>>)
    ensures WithinBudget(cfg, a + [Filter] + b) == WithinBudget(cfg, a + b)
    ensures Emitted(a + [Filter] + b) == Emitted(a + b)
  {
    ThrowsAppend(a + [Filter], b);
    ThrowsAppend(a, [Filter]);
    ThrowsAppend(a, b);
    EmittedAppend(a + [Filter], b);
    EmittedAppend(a, [Filter]);
    EmittedAppend(a, b);
    var f: seq<ItemOutcome<T>> := [Filter];
    assert f[..0] == [];
    var x, y := a + [Filter] + b, a + b;
    assert forall i | 0 <= i < |a| :: x[i] == y[i];
    assert forall i | |a| < i < |x| :: x[i] == y[i - 1];
    assert AllSkippable(cfg, x) == AllSkippable(cfg, y) by {
      if AllSkippable(cfg, y) {
        forall i | 0 <= i < |x| && x[i].Throw?
          ensures x[i].kind in cfg.skippable
        {
          if i > |a| { assert x[i] == y[i - 1]; }
        }
      }
      if AllSkippable(cfg, x) {
        forall i | 0 <= i < |y| && y[i].Throw?
          ensures y[i].kind in cfg.skippable
        {
          if i >= |a| { assert y[i] == x[i + 1]; }
        }
      }
    }
  }

  // ---------------------------------------------------------------------------
  // The step as the framework runs it, writing each chunk through a MERGE writer.
  // ---------------------------------------------------------------------------

  /** The writer's parameter binding, applied to each item of a chunk. */
  function Bind<T, K, V>(bind: T -> (K, V), xs: seq<T>): (r: seq<(K, V)>)
    ensures |r| == |xs| && forall i | 0 <= i < |xs| :: r[i] == bind(xs[i])
  {
    seq(|xs|, i requires 0 <= i < |xs| => bind(xs[i]))
  }

  lemma BindAppend<T, K, V>(bind: T -> (K, V), a: seq<T>, b: seq<T>)
    ensures Bind(bind, a + b) == Bind(bind, a) + Bind(bind, b)
  {
  }

  /** Writes one chunk with a single `MergeChunk` call: the table then holds the MERGEs of
      every item committed so far. */
  method WriteChunk<K(==), V, T>(table: MergeTable<K, V>, bind: T -> (K, V), ghost base: Table<K, V>,
                                 ghost committed: seq<T>, buffer: seq<T>)
    requires table.State() == MergeAll(base, Bind(bind, committed))
    modifies table
    ensures table.State() == MergeAll(base, Bind(bind, committed + buffer))
  {
    table.MergeChunk(Bind(bind, buffer));
    MergeAllAppend(base, Bind(bind, committed), Bind(bind, buffer));
    BindAppend(bind, committed, buffer);
  }

  /** Runs the step over the records' outcomes. Each full chunk is written with one
      `MergeChunk` call when it commits; a failure discards the open chunk. Returns the
      step status and the skips reported to the skip listener. */
  method RunStep<K(==), V, T>(cfg: StepConfig, outcomes: seq<ItemOutcome<T>>, bind: T -> (K, V), table: MergeTable<K, V>)
    returns (status: Status, notified: seq<SkipEvent>)
    requires ValidConfig(cfg)
    modifies table
    ensures status == Run(cfg, outcomes).status && notified == Run(cfg, outcomes).skips
    ensures table.State() == MergeAll(old(table.State()), Bind(bind, Run(cfg, outcomes).committed))
  {
    ghost var committed: seq<T> := [];
    var buffer: seq<T> := [];
    var read: nat := 0;
    var skipCount: nat := 0;
    var chunkSkips: seq<SkipEvent> := [];
    notified := [];
    status := Running;
    var i := 0;
    while i < |outcomes| && status == Running
      invariant 0 <= i <= |outcomes|
      invariant Fold(cfg, outcomes[..i]) == StepRun(status, committed, buffer, read, skipCount, chunkSkips, notified)
      invariant table.State() == MergeAll(old(table.State()), Bind(bind, committed))
      decreases |outcomes| - i
    {
      ghost var before := StepRun(status, committed, buffer, read, skipCount, chunkSkips, notified);
      FoldPrefixStep(cfg, outcomes, i);
      var o := outcomes[i];
      if o.Throw? && !(o.kind in cfg.skippable && skipCount < cfg.skipLimit) {
        // the open chunk's transaction is rolled back; its skips are never reported
        status := Failed(if o.kind in cfg.skippable then SkipLimitExceeded else NonSkippable(o.kind));
        buffer := [];
        read := 0;
        chunkSkips := [];
        AdvanceFails(cfg, before, i, o);
      } else {
        AdvanceWithin(cfg, before, i, o);
        if o.Emit? {
          buffer := buffer + [o.item];
        } else if o.Throw? {
          skipCount := skipCount + 1;
          chunkSkips := chunkSkips + [SkipEvent(i, o.kind)];
        }
        ghost var absorbed := StepRun(status, committed, buffer, read, skipCount, chunkSkips, notified);
        assert Fold(cfg, outcomes[..i + 1]) == CountRead(cfg, absorbed);
        if read + 1 == cfg.chunkSize {
          // the chunk is full: write it, commit, then tell the listener its skips
          WriteChunk(table, bind, old(table.State()), committed, buffer);
          committed := committed + buffer;
          notified := notified + Report(chunkSkips);
          chunkSkips := [];
          buffer := [];
          read := 0;
        } else {
          read := read + 1;
        }
      }
      i := i + 1;
    }
    if status == Running {
      assert outcomes[..i] == outcomes;
      WriteChunk(table, bind, old(table.State()), committed, buffer);
      committed := committed + buffer;
      notified := notified + Report(chunkSkips);
      status := Completed;
    } else {
      FailureIsFinal(cfg, outcomes, i);
    }
  }
}
