/**
 Coordinator runs as a state machine over the shared file system: every AFS call of a run
 is one step that may succeed, fail, or take effect and still be reported as failed, and
 the coordinator may crash between any two steps and start again.
 */
module Recovery {
  import opened Words
  import opened Sequences
  import opened Decimal
  import opened MillerRabin
  import opened Primality
  import opened Worker
  import opened Coordinator

  // A file on AFS: missing, created but never stored, or stored whole.
  datatype Stored<T> = Absent | Empty | Holds(value: T)

  datatype Disk = Disk(snapshot: Stored<Snapshot>, output: Stored<string>)

  datatype Phase =
    | Down            // no coordinator process
    | Collecting      // waiting for the next result
    | SnapDelete | SnapCreate | SnapStore
    | OutDelete | OutCreate | OutStore
    | Cleanup         // output written, snapshot about to be deleted
    | Done            // Run returned nil
    | GaveUp          // Run returned an error

  // all: the files this run discovered; waiting: those whose result has not arrived;
  // failed: those whose result was an error; nothingPending: the run found all files done.
  datatype Run = Run(phase: Phase, all: seq<string>, tally: Tally, waiting: set<string>,
                     failed: set<string>, nothingPending: bool)

  // past: every snapshot that a run ever tried to store.
  datatype World = World(disk: Disk, run: Run, past: set<Snapshot>)

  const NO_RUN := Run(Down, [], Tally([], []), {}, {}, false)

  // ---------- Steps ----------

  function Loaded(s: Stored<Snapshot>): Option<Snapshot>
  {
    if s.Holds? then Some(s.value) else None
  }

  // A snapshot that cannot be read is treated like one that does not exist.
  function LoadedIf(s: Stored<Snapshot>, readable: bool): Option<Snapshot>
  {
    if readable then Loaded(s) else None
  }

  // A run starts: it discovers input files, reads the snapshot and works out what is pending.
  predicate Start(inputs: map<string, string>, w: World, w': World, all: seq<string>, readable: bool)
  {
    && w.run.phase == Down
    && all != [] && Elements(all) <= inputs.Keys
    && var tally := Resume(LoadedIf(w.disk.snapshot, readable));
       var pending := Elements(Pending(all, tally.completed));
       w' == w.(run := Run(if pending == {} then OutDelete else Collecting, all, tally, pending, {}, pending == {}))
  }

  // Any result that workers can come to for a file, by whichever tries.
  ghost predicate ResultArrives(inputs: map<string, string>, w: World, w': World, file: string, result: WorkerResult)
  {
    && w.run.phase == Collecting && file in w.run.waiting && file in inputs
    && PossibleTry(inputs[file], result) && result.Received?
    && w' == w.(run := w.run.(phase := SnapDelete, waiting := w.run.waiting - {file},
                              tally := Merge(w.run.tally, file, result.primes)))
  }

  predicate ErrorArrives(w: World, w': World, file: string)
  {
    && w.run.phase == Collecting && file in w.run.waiting
    && w' == w.(run := w.run.(waiting := w.run.waiting - {file}, failed := w.run.failed + {file}))
  }

  // An AFS delete: its error is ignored, and it may or may not have removed the file.
  predicate Deletes<T(==)>(s: Stored<T>, s': Stored<T>)
  {
    s' == Absent || s' == s
  }

  // An AFS create: it fails when the file exists, and otherwise may or may not take effect
  // when it is reported as failed.
  predicate Creates<T(==)>(s: Stored<T>, s': Stored<T>, ok: bool)
  {
    if ok then s == Absent && s' == Empty else s' == s || (s == Absent && s' == Empty)
  }

  // An AFS write and close: the whole value or nothing, since the server renames a
  // temporary file; storing an empty value always fails.
  predicate Stores<T(==)>(s: Stored<T>, s': Stored<T>, value: T, isEmpty: bool, ok: bool)
  {
    if ok then !isEmpty && s' == Holds(value) else s' == s || (!isEmpty && s' == Holds(value))
  }

  ghost predicate SaveStep(w: World, w': World)
  {
    && w'.disk.output == w.disk.output
    && match w.run.phase
       case SnapDelete =>
         && Deletes(w.disk.snapshot, w'.disk.snapshot) && w'.run == w.run.(phase := SnapCreate) && w'.past == w.past
       case SnapCreate =>
         && w'.past == w.past
         && exists ok :: Creates(w.disk.snapshot, w'.disk.snapshot, ok)
              && w'.run == w.run.(phase := if ok then SnapStore else Collecting)
       case SnapStore =>
         && w'.past == w.past + {SnapshotOf(w.run.all, w.run.tally)} && w'.run == w.run.(phase := Collecting)
         && exists ok :: Stores(w.disk.snapshot, w'.disk.snapshot, SnapshotOf(w.run.all, w.run.tally), false, ok)
       case _ => false
  }

  ghost predicate WriteStep(w: World, w': World)
  {
    var text := OutputText(w.run.tally.primes);
    var blank := text == "";
    && w'.past == w.past
    && match w.run.phase
       case Collecting =>
         w.run.waiting == {} && w' == w.(run := w.run.(phase := OutDelete))
       case OutDelete =>
         && Deletes(w.disk.output, w'.disk.output) && w'.run == w.run.(phase := OutCreate)
         && w'.disk.snapshot == w.disk.snapshot
       case OutCreate =>
         && w'.disk.snapshot == w.disk.snapshot
         && exists ok :: Creates(w.disk.output, w'.disk.output, ok)
              && w'.run == w.run.(phase := if ok then OutStore else GaveUp)
       case OutStore =>
         && w'.disk.snapshot == w.disk.snapshot
         && exists ok :: Stores(w.disk.output, w'.disk.output, text, blank, ok)
              && w'.run == w.run.(phase := if !ok then GaveUp else if w.run.nothingPending then Done else Cleanup)
       case Cleanup =>
         && Deletes(w.disk.snapshot, w'.disk.snapshot) && w'.run == w.run.(phase := Done)
         && w'.disk.output == w.disk.output
       case _ => false
  }

  // A crash, or the end of a finished process: only what is on AFS remains.
  predicate Crash(w: World, w': World)
  {
    w' == w.(run := NO_RUN)
  }

  // A failover of the file system brings back an older snapshot, an empty file or none.
  ghost predicate SnapshotReverts(w: World, w': World)
  {
    && (w'.disk.snapshot.Holds? ==> w'.disk.snapshot.value in w.past)
    && w' == w.(disk := w.disk.(snapshot := w'.disk.snapshot))
  }

  // What a coordinator does, or a crash of it.
  ghost predicate RunStep(inputs: map<string, string>, w: World, w': World)
  {
    || (exists all, readable :: Start(inputs, w, w', all, readable))
    || (exists f, result :: ResultArrives(inputs, w, w', f, result))
    || (exists f :: ErrorArrives(w, w', f))
    || SaveStep(w, w')
    || WriteStep(w, w')
    || Crash(w, w')
  }

  ghost predicate Step(inputs: map<string, string>, w: World, w': World)
  {
    RunStep(inputs, w, w') || SnapshotReverts(w, w')
  }

  ghost predicate Init(w: World)
  {
    w == World(Disk(Absent, Absent), NO_RUN, {})
  }

  // Any finite history of runs, crashes and restarts.
  ghost predicate Behaviour(inputs: map<string, string>, b: seq<World>)
  {
    && b != [] && Init(b[0])
    && forall i :: 0 <= i < |b| - 1 ==> Step(inputs, b[i], b[i + 1])
  }

  // ---------- The invariant ----------

  function TallyOf(s: Snapshot): Tally
  {
    Tally(s.completed, s.primes)
  }

  // Accurate, and all completed files were readable.
  ghost predicate Sound(t: Tally, inputs: map<string, string>)
  {
    Accurate(t, inputs) && forall f :: f in t.completed && f in inputs ==> ScanLines(inputs[f]).complete
  }

  ghost predicate RunInv(inputs: map<string, string>, r: Run)
  {
    && Sound(r.tally, inputs)
    && r.waiting <= inputs.Keys && r.waiting !! Elements(r.tally.completed)
    && Elements(r.all) <= Elements(r.tally.completed) + r.waiting + r.failed
    && (r.phase in {OutDelete, OutCreate, OutStore, Cleanup, Done} ==> r.waiting == {})
  }

  ghost predicate DiskInv(inputs: map<string, string>, w: World)
  {
    && (w.disk.snapshot.Holds? ==> Sound(TallyOf(w.disk.snapshot.value), inputs))
    && (forall s :: s in w.past ==> Sound(TallyOf(s), inputs))
  }

  ghost predicate Inv(inputs: map<string, string>, w: World)
  {
    && DiskInv(inputs, w) && RunInv(inputs, w.run)
    && (w.run.phase in {Cleanup, Done} ==>
         w.disk.output == Holds(OutputText(w.run.tally.primes)) && OutputText(w.run.tally.primes) != "")
  }

  lemma InitInv(inputs: map<string, string>, w: World)
    requires Init(w)
    ensures Inv(inputs, w)
  {
    EmptyTally(inputs);
  }

  lemma EmptyTally(inputs: map<string, string>)
    ensures Sound(Tally([], []), inputs)
  {
    assert Elements<string>([]) == {} && Elements<uint64>([]) == {};
  }

  lemma StartInv(inputs: map<string, string>, w: World, w': World, all: seq<string>, readable: bool)
    requires Inv(inputs, w) && Start(inputs, w, w', all, readable)
    ensures Inv(inputs, w')
  {
    hide Sound, OutputText;
    var tally := Resume(LoadedIf(w.disk.snapshot, readable));
    PendingIsTheRest(all, tally.completed);
    EmptyTally(inputs);
  }

  lemma MergeKeepsSound(t: Tally, inputs: map<string, string>, file: string, result: WorkerResult)
    requires Sound(t, inputs) && file in inputs && file !in t.completed
    requires PossibleTry(inputs[file], result) && result.Received?
    ensures Sound(Merge(t, file, result.primes), inputs)
  {
    hide Accurate, PossibleTry, MergePrimes, Kept, NumbersOf, ScanLines;
    TryIsAllOrNothing(inputs[file], result);
    MergeKeepsAccurate(t, inputs, file);
  }

  lemma ResultInv(inputs: map<string, string>, w: World, w': World, file: string, result: WorkerResult)
    requires Inv(inputs, w) && ResultArrives(inputs, w, w', file, result)
    ensures Inv(inputs, w')
  {
    hide Sound, OutputText, Merge, PossibleTry;
    var t := w.run.tally;
    assert file !in t.completed by { assert file !in Elements(t.completed); }
    MergeKeepsSound(t, inputs, file, result);
    MergeCompletes(t, file, result.primes);
  }

  lemma StepInv(inputs: map<string, string>, w: World, w': World)
    requires Inv(inputs, w) && Step(inputs, w, w')
    ensures Inv(inputs, w')
  {
    hide Sound, OutputText, Start, ResultArrives, SaveStep, WriteStep, Inv;
    if all, readable :| Start(inputs, w, w', all, readable) {
      StartInv(inputs, w, w', all, readable);
    } else if f, result :| ResultArrives(inputs, w, w', f, result) {
      ResultInv(inputs, w, w', f, result);
    } else if SaveStep(w, w') {
      SaveInv(inputs, w, w');
    } else if WriteStep(w, w') {
      WriteInv(inputs, w, w');
    } else {
      OtherInv(inputs, w, w');
    }
  }

  lemma SaveInv(inputs: map<string, string>, w: World, w': World)
    requires Inv(inputs, w) && SaveStep(w, w')
    ensures Inv(inputs, w')
  {
    hide Sound, OutputText, Pending;
  }

  lemma WriteInv(inputs: map<string, string>, w: World, w': World)
    requires Inv(inputs, w) && WriteStep(w, w')
    ensures Inv(inputs, w')
  {
    hide Sound, OutputText;
  }

  lemma OtherInv(inputs: map<string, string>, w: World, w': World)
    requires Inv(inputs, w) && ((exists f :: ErrorArrives(w, w', f)) || Crash(w, w') || SnapshotReverts(w, w'))
    ensures Inv(inputs, w')
  {
    hide Sound, OutputText;
    EmptyTally(inputs);
  }

  lemma {:induction false} BehaviourInv(inputs: map<string, string>, b: seq<World>, i: nat)
    requires Behaviour(inputs, b) && i < |b|
    ensures Inv(inputs, b[i])
  {
    hide Inv, Init, Step;
    if i == 0 {
      InitInv(inputs, b[0]);
    } else {
      BehaviourInv(inputs, b, i - 1);
      StepInv(inputs, b[i - 1], b[i - 1 + 1]);
    }
  }

  // ---------- Every history ends in the same bytes ----------

  // Sorted, duplicate-free, one per line: the accepted numbers of all input files.
  ghost function ExpectedOutput(inputs: map<string, string>): string
  {
    PrintLines(Ascending(PrimesIn(inputs, inputs.Keys)))
  }

  // The general case: a run that returns without an error has written the primes of
  // exactly the completed files, and every discovered file is completed or has failed.
  lemma CompletedRunOutput(inputs: map<string, string>, b: seq<World>, i: nat)
    requires Behaviour(inputs, b) && i < |b| && b[i].run.phase == Done
    ensures var r := b[i].run;
      && b[i].disk.output == Holds(PrintLines(Ascending(PrimesIn(inputs, Elements(r.tally.completed)))))
      && Elements(r.all) - r.failed <= Elements(r.tally.completed) <= inputs.Keys
  {
    BehaviourInv(inputs, b, i);
  }

  // After any history of crashes at any step, a run that discovers every input file and
  // sees no error writes the expected output.
  lemma CrashResumeEquivalence(inputs: map<string, string>, b: seq<World>, i: nat)
    requires Behaviour(inputs, b) && i < |b| && b[i].run.phase == Done
    requires b[i].run.failed == {} && Elements(b[i].run.all) == inputs.Keys
    ensures b[i].disk.output == Holds(ExpectedOutput(inputs))
  {
    hide Behaviour, Ascending, PrintLines, PrimesIn;
    CompletedRunOutput(inputs, b, i);
    assert Elements(b[i].run.tally.completed) == inputs.Keys;
  }

  // Any two histories that end so, interrupted or not, leave the same bytes.
  lemma AnyTwoHistoriesAgree(inputs: map<string, string>, b: seq<World>, i: nat, c: seq<World>, j: nat)
    requires Behaviour(inputs, b) && i < |b| && b[i].run.phase == Done
    requires Behaviour(inputs, c) && j < |c| && c[j].run.phase == Done
    requires b[i].run.failed == c[j].run.failed == {}
    requires Elements(b[i].run.all) == Elements(c[j].run.all) == inputs.Keys
    ensures b[i].disk.output == c[j].disk.output
  {
    CrashResumeEquivalence(inputs, b, i);
    CrashResumeEquivalence(inputs, c, j);
  }

  // Read back, the output is the strictly increasing list of all accepted numbers of the
  // input files; it holds every prime that occurs in one of them.
  lemma ExpectedOutputReadBack(inputs: map<string, string>, f: string, n: uint64)
    requires f in inputs && n in NumbersOf(inputs[f])
    ensures var numbers := NumbersIn(ScanLines(ExpectedOutput(inputs)).lines);
      && ScanLines(ExpectedOutput(inputs)).complete && StrictlyIncreasing(numbers)
      && Elements(numbers) == PrimesIn(inputs, inputs.Keys)
      && (n in numbers <==> Accepts(n as int))
      && (Prime(n as int) ==> n in numbers)
  {
    hide ScanLines, NumbersOf, Kept;
    var all := Ascending(PrimesIn(inputs, inputs.Keys));
    PrintParseRoundTrip(all);
    KeptHoldsTheAcceptedNumbersOnce(NumbersOf(inputs[f]));
    var kept := Kept(NumbersOf(inputs[f]));
    assert n in kept <==> n in Elements(kept);
    assert n in all <==> n in Elements(all);
    if Prime(n as int) { PrimesAreAccepted(n as int); }
    if n in all {
      var g :| g in inputs && n in Kept(NumbersOf(inputs[g]));
      KeptHoldsTheAcceptedNumbersOnce(NumbersOf(inputs[g]));
      assert n in Elements(Kept(NumbersOf(inputs[g])));
    }
  }

  // In every reachable state the snapshot is missing, empty, or an accurate tally of the
  // files it lists; a torn or stale mixture is impossible.
  lemma SnapshotIsNeverTorn(inputs: map<string, string>, b: seq<World>, i: nat)
    requires Behaviour(inputs, b) && i < |b| && b[i].disk.snapshot.Holds?
    ensures var s := b[i].disk.snapshot.value;
      && Elements(s.completed) <= inputs.Keys && NoDuplicates(s.primes)
      && Elements(s.primes) == PrimesIn(inputs, Elements(s.completed))
  {
    BehaviourInv(inputs, b, i);
  }

  // ---------- When a run completes, and with what ----------

  // A finished run's output is the expected one exactly when the completed files hold all the
  // primes of the input; a file that failed on every worker is only logged.
  lemma OutputIsExpectedIff(inputs: map<string, string>, b: seq<World>, i: nat)
    requires Behaviour(inputs, b) && i < |b| && b[i].run.phase == Done
    ensures b[i].disk.output == Holds(ExpectedOutput(inputs)) <==>
      PrimesIn(inputs, Elements(b[i].run.tally.completed)) == PrimesIn(inputs, inputs.Keys)
  {
    hide Behaviour, PrintLines, PrimesIn;
    CompletedRunOutput(inputs, b, i);
    var some, all := PrimesIn(inputs, Elements(b[i].run.tally.completed)), PrimesIn(inputs, inputs.Keys);
    if PrintLines(Ascending(some)) == PrintLines(Ascending(all)) {
      PrintLinesInjective(Ascending(some), Ascending(all));
      assert Elements(Ascending(some)) == some && Elements(Ascending(all)) == all;
    }
  }

  lemma NothingToPrint(primes: seq<uint64>)
    ensures OutputText(primes) == "" <==> Elements(primes) == {}
  {
    EmptyElements(Ascending(Elements(primes)));
  }

  // A run that is about to store its output can complete exactly when some completed file
  // holds a prime: an empty output cannot be stored.
  lemma StoresOutputIffPrimes(inputs: map<string, string>, b: seq<World>, i: nat)
    requires Behaviour(inputs, b) && i < |b| && b[i].run.phase == OutStore
    ensures (exists w' :: WriteStep(b[i], w') && w'.run.phase in {Cleanup, Done}) <==>
      PrimesIn(inputs, Elements(b[i].run.tally.completed)) != {}
  {
    hide OutputText, PrimesIn, Ascending, Behaviour;
    BehaviourInv(inputs, b, i);
    var w, primes := b[i], b[i].run.tally.primes;
    NothingToPrint(primes);
    if Elements(primes) != {} {
      var text := OutputText(primes);
      var w' := w.(disk := w.disk.(output := Holds(text)),
                   run := w.run.(phase := if w.run.nothingPending then Done else Cleanup));
      assert Stores(w.disk.output, w'.disk.output, text, false, true);
      assert WriteStep(w, w');
    }
  }

  // So every run that has completed has a completed file with a prime.
  lemma CompletedRunHasPrimes(inputs: map<string, string>, b: seq<World>, i: nat)
    requires Behaviour(inputs, b) && i < |b| && b[i].run.phase in {Cleanup, Done}
    ensures PrimesIn(inputs, Elements(b[i].run.tally.completed)) != {}
  {
    hide OutputText, PrimesIn, Behaviour;
    BehaviourInv(inputs, b, i);
    NothingToPrint(b[i].run.tally.primes);
  }

  // ---------- How much work a crash can lose ----------

  // Steps of histories in which no AFS call fails.
  ghost predicate ReliableStep(inputs: map<string, string>, w: World, w': World)
  {
    && RunStep(inputs, w, w')
    && (Crash(w, w') || match w.run.phase
        case Down => w'.run.tally == Resume(Loaded(w.disk.snapshot))
        case SnapDelete => w'.disk.snapshot == Absent
        case SnapCreate => w'.run.phase == SnapStore
        case SnapStore => w'.disk.snapshot == Holds(SnapshotOf(w.run.all, w.run.tally))
        case OutDelete => w'.disk.output == Absent
        case OutCreate => w'.run.phase == OutStore
        case Cleanup => w'.disk.snapshot == Absent
        case _ => true)
  }

  ghost predicate ReliableBehaviour(inputs: map<string, string>, b: seq<World>)
  {
    && b != [] && Init(b[0])
    && forall i :: 0 <= i < |b| - 1 ==> ReliableStep(inputs, b[i], b[i + 1])
  }

  // The number of completed files that a restart would find in the snapshot.
  function Recoverable(d: Disk): nat
  {
    |Resume(Loaded(d.snapshot)).completed|
  }

  predicate Working(p: Phase)
  {
    p in {Collecting, SnapDelete, SnapCreate, SnapStore, OutDelete, OutCreate, OutStore}
  }

  ghost predicate SavedInv(w: World)
  {
    var done := |w.run.tally.completed|;
    match w.run.phase
    case SnapDelete => done == Recoverable(w.disk) + 1
    case SnapCreate => done > 0 && w.disk.snapshot == Absent
    case SnapStore => done > 0 && w.disk.snapshot == Empty
    case Collecting => done == Recoverable(w.disk)
    case OutDelete => done == Recoverable(w.disk)
    case OutCreate => done == Recoverable(w.disk)
    case OutStore => done == Recoverable(w.disk)
    case Cleanup => !w.run.nothingPending
    case Done => !w.run.nothingPending ==> w.disk.snapshot == Absent
    case _ => true
  }

  lemma SavedStep(inputs: map<string, string>, w: World, w': World)
    requires SavedInv(w) && ReliableStep(inputs, w, w')
    ensures SavedInv(w')
  {
    hide OutputText, Pending, Kept, NumbersOf, MergePrimes, ScanLines;
  }

  lemma {:induction false} ReliableSaved(inputs: map<string, string>, b: seq<World>, i: nat)
    requires ReliableBehaviour(inputs, b) && i < |b|
    ensures SavedInv(b[i])
  {
    hide ReliableStep;
    if i == 0 {
    } else {
      ReliableSaved(inputs, b, i - 1);
      SavedStep(inputs, b[i - 1], b[i - 1 + 1]);
    }
  }

  // If no AFS call fails, a crash costs at most one file exactly when it does not fall between
  // the deletion of the old snapshot and the storing of the new one, with two or more files
  // completed.
  lemma CrashLosesAtMostOneFile(inputs: map<string, string>, b: seq<World>, i: nat)
    requires ReliableBehaviour(inputs, b) && i < |b| && Working(b[i].run.phase)
    ensures |b[i].run.tally.completed| - Recoverable(b[i].disk) <= 1 <==>
      !(b[i].run.phase in {SnapCreate, SnapStore} && |b[i].run.tally.completed| >= 2)
  {
    ReliableSaved(inputs, b, i);
  }

  // What has become of the saves of a run: whether the snapshot was removed and not stored
  // again, and how many results have been merged since a store last took effect.
  datatype Saves = Saves(gone: bool, since: nat)

  function SavesAfter(s: Saves, w: World, w': World): Saves
  {
    match w.run.phase
    case Collecting => if w'.run.phase == SnapDelete then s.(since := s.since + 1) else s
    case SnapDelete => if w'.disk.snapshot == Absent then s.(gone := true) else s
    case SnapStore =>
      if w'.disk.snapshot == Holds(SnapshotOf(w.run.all, w.run.tally)) then Saves(false, 0) else s
    case _ => s
  }

  // The saves between two moments of a history.
  function SavesOf(b: seq<World>, j: nat, i: nat): Saves
    requires j <= i < |b|
  {
    if i == j then Saves(false, 0) else SavesAfter(SavesOf(b, j, i - 1), b[i - 1], b[i])
  }

  // A run starts and reads the snapshot, if there is one.
  ghost predicate Starts(inputs: map<string, string>, w: World, w': World)
  {
    exists all :: Start(inputs, w, w', all, true)
  }

  ghost predicate Continues(inputs: map<string, string>, w: World, w': World)
  {
    RunStep(inputs, w, w') && w'.run.phase != Down
  }

  // A run that began at moment j and read its snapshot is still going on at moment i.
  ghost predicate OneRun(inputs: map<string, string>, b: seq<World>, j: nat, i: nat)
  {
    && 0 < j <= i < |b| && Starts(inputs, b[j - 1], b[j])
    && forall k :: j <= k < i ==> Continues(inputs, b[k], b[k + 1])
  }

  ghost predicate SavesMatch(w: World, s: Saves)
  {
    && w.run.phase != Down
    && (Working(w.run.phase) ==>
          Recoverable(w.disk) == if s.gone then 0 else |w.run.tally.completed| - s.since)
    && (w.run.phase == SnapStore ==> w.disk.snapshot == Empty)
  }

  lemma SavesMatchStep(inputs: map<string, string>, w: World, w': World, s: Saves)
    requires SavesMatch(w, s) && Continues(inputs, w, w')
    ensures SavesMatch(w', SavesAfter(s, w, w'))
  {
    hide OutputText, Pending, MergePrimes, PossibleTry;
  }

  lemma {:induction false} SavesAlwaysMatch(inputs: map<string, string>, b: seq<World>, j: nat, i: nat)
    requires OneRun(inputs, b, j, i)
    ensures SavesMatch(b[i], SavesOf(b, j, i))
    decreases i
  {
    if i == j {
      hide Continues, Pending;
    } else {
      hide Continues, Starts, SavesMatch, SavesAfter;
      SavesAlwaysMatch(inputs, b, j, i - 1);
      SavesMatchStep(inputs, b[i - 1], b[i - 1 + 1], SavesOf(b, j, i - 1));
    }
  }

  // Whatever fails, a crash costs a run at most one file exactly when at most one is completed,
  // or the snapshot is in place and lacks at most the last result.
  lemma CrashLosesAtMostOneFileIff(inputs: map<string, string>, b: seq<World>, j: nat, i: nat)
    requires OneRun(inputs, b, j, i) && Working(b[i].run.phase)
    ensures |b[i].run.tally.completed| - Recoverable(b[i].disk) <= 1 <==>
      || |b[i].run.tally.completed| <= 1
      || (!SavesOf(b, j, i).gone && SavesOf(b, j, i).since <= 1)
  {
    SavesAlwaysMatch(inputs, b, j, i);
  }

  // Saves that succeed, whatever else fails: they get as far as storing, and the store takes
  // effect.
  ghost predicate SavingStep(inputs: map<string, string>, w: World, w': World)
  {
    && RunStep(inputs, w, w')
    && (Crash(w, w') || match w.run.phase
        case SnapCreate => w'.run.phase == SnapStore
        case SnapStore => w'.disk.snapshot == Holds(SnapshotOf(w.run.all, w.run.tally))
        case _ => true)
  }

  ghost predicate SavedUpToOne(w: World)
  {
    var done := |w.run.tally.completed|;
    match w.run.phase
    case SnapDelete => done <= Recoverable(w.disk) + 1
    case SnapCreate => true
    case SnapStore => true
    case _ => Working(w.run.phase) ==> done <= Recoverable(w.disk)
  }

  lemma SavedUpToOneStep(inputs: map<string, string>, w: World, w': World)
    requires SavedUpToOne(w) && SavingStep(inputs, w, w')
    ensures SavedUpToOne(w')
  {
    hide OutputText, Pending, MergePrimes, PossibleTry;
  }

  // If the saves have succeeded since some moment without a run, a crash outside the window of
  // a save loses at most one file.
  lemma {:induction false} SuccessfulSavesLoseAtMostOne(inputs: map<string, string>, b: seq<World>, j: nat, i: nat)
    requires j <= i < |b| && b[j].run.phase == Down
    requires forall k :: j <= k < i ==> SavingStep(inputs, b[k], b[k + 1])
    ensures SavedUpToOne(b[i])
    ensures Working(b[i].run.phase) && b[i].run.phase !in {SnapCreate, SnapStore} ==>
      |b[i].run.tally.completed| - Recoverable(b[i].disk) <= 1
    decreases i
  {
    if j < i {
      hide SavingStep;
      SuccessfulSavesLoseAtMostOne(inputs, b, j, i - 1);
      SavedUpToOneStep(inputs, b[i - 1], b[i - 1 + 1]);
    }
  }

  // A completed run leaves no snapshot behind if it had something to do; if it found every
  // file already completed, it leaves the snapshot as it was.
  lemma LeftoverSnapshot(inputs: map<string, string>, b: seq<World>, i: nat)
    requires ReliableBehaviour(inputs, b) && i + 1 < |b| && b[i + 1].run.phase == Done && b[i].run.phase != Done
    ensures if b[i + 1].run.nothingPending
      then b[i + 1].disk.snapshot == b[i].disk.snapshot
      else b[i + 1].disk.snapshot == Absent
  {
    ReliableSaved(inputs, b, i);
    ReliableSaved(inputs, b, i + 1);
    assert ReliableStep(inputs, b[i], b[i + 1]);
    hide OutputText, Pending, Kept, NumbersOf, MergePrimes, ScanLines;
  }

  // ---------- Histories ----------

  function Last(b: seq<World>): World
    requires b != []
  {
    b[|b| - 1]
  }

  lemma Then(inputs: map<string, string>, b: seq<World>, w: World) returns (c: seq<World>)
    requires b != [] && ReliableBehaviour(inputs, b) && ReliableStep(inputs, Last(b), w)
    ensures |c| > |b| && ReliableBehaviour(inputs, c) && Last(c) == w && c[|c| - 2] == Last(b)
  {
    hide ReliableStep, Init;
    c := b + [w];
  }

  lemma {:induction false} ReliableIsBehaviour(inputs: map<string, string>, b: seq<World>)
    requires b != [] && ReliableBehaviour(inputs, b)
    ensures Behaviour(inputs, b)
  {
    hide RunStep;
  }

  // The first run starts on the given files.
  lemma StartOn(inputs: map<string, string>, all: seq<string>) returns (b: seq<World>)
    requires all != [] && Elements(all) <= inputs.Keys
    ensures b != [] && ReliableBehaviour(inputs, b)
    ensures Last(b) ==
      World(Disk(Absent, Absent), Run(Collecting, all, Tally([], []), Elements(all), {}, false), {})
  {
    hide Pending;
    var w := World(Disk(Absent, Absent), NO_RUN, {});
    var w' := w.(run := Run(Collecting, all, Tally([], []), Elements(all), {}, false));
    var none: seq<string> := [];
    PendingIsTheRest(all, none);
    assert Elements(none) == {} && all[0] in Elements(all);
    assert Elements(Pending(all, none)) == Elements(all);
    assert Start(inputs, w, w', all, true);
    b := Then(inputs, [w], w');
  }

  lemma Arrive(inputs: map<string, string>, b: seq<World>, f: string) returns (c: seq<World>)
    requires b != [] && ReliableBehaviour(inputs, b) && Last(b).run.phase == Collecting && f in Last(b).run.waiting
    requires f in inputs && ScanLines(inputs[f]).complete
    ensures |c| > |b| && ReliableBehaviour(inputs, c) && c[|c| - 2] == Last(b)
    ensures var w := Last(b);
      Last(c) == w.(run := w.run.(phase := SnapDelete, waiting := w.run.waiting - {f},
                                  tally := Merge(w.run.tally, f, Kept(NumbersOf(inputs[f])))))
  {
    hide Kept, NumbersOf, ScanLines, Merge, PossibleTry, ReliableBehaviour;
    var w, result := Last(b), Received(Kept(NumbersOf(inputs[f])), |NumbersOf(inputs[f])|);
    var w' := w.(run := w.run.(phase := SnapDelete, waiting := w.run.waiting - {f},
                               tally := Merge(w.run.tally, f, result.primes)));
    WholeTryIsPossible(inputs[f]);
    assert ResultArrives(inputs, w, w', f, result);
    c := Then(inputs, b, w');
  }

  lemma DeleteSnapshot(inputs: map<string, string>, b: seq<World>) returns (c: seq<World>)
    requires b != [] && ReliableBehaviour(inputs, b) && Last(b).run.phase == SnapDelete
    ensures |c| > |b| && ReliableBehaviour(inputs, c) && c[|c| - 2] == Last(b)
    ensures Last(c) == Last(b).(disk := Last(b).disk.(snapshot := Absent), run := Last(b).run.(phase := SnapCreate))
  {
    hide ReliableBehaviour;
    var w := Last(b);
    var w' := w.(disk := w.disk.(snapshot := Absent), run := w.run.(phase := SnapCreate));
    assert SaveStep(w, w');
    c := Then(inputs, b, w');
  }

  lemma Save(inputs: map<string, string>, b: seq<World>) returns (c: seq<World>)
    requires b != [] && ReliableBehaviour(inputs, b) && Last(b).run.phase == SnapDelete
    ensures c != [] && ReliableBehaviour(inputs, c)
    ensures var w := Last(b);
      var saved := SnapshotOf(w.run.all, w.run.tally);
      Last(c) == World(Disk(Holds(saved), w.disk.output), w.run.(phase := Collecting), w.past + {saved})
  {
    hide ReliableBehaviour, SnapshotOf;
    var w := Last(b);
    var saved := SnapshotOf(w.run.all, w.run.tally);
    c := DeleteSnapshot(inputs, b);
    var w1 := Last(c);
    var w2 := w1.(disk := w1.disk.(snapshot := Empty), run := w1.run.(phase := SnapStore));
    var w3 := World(Disk(Holds(saved), w.disk.output), w.run.(phase := Collecting), w.past + {saved});
    assert Creates(w1.disk.snapshot, w2.disk.snapshot, true) && SaveStep(w1, w2);
    c := Then(inputs, c, w2);
    assert Stores(w2.disk.snapshot, w3.disk.snapshot, saved, false, true) && SaveStep(w2, w3);
    c := Then(inputs, c, w3);
  }

  lemma Fail(inputs: map<string, string>, b: seq<World>, f: string) returns (c: seq<World>)
    requires b != [] && ReliableBehaviour(inputs, b) && Last(b).run.phase == Collecting && f in Last(b).run.waiting
    ensures c != [] && ReliableBehaviour(inputs, c)
    ensures var r := Last(b).run;
      Last(c) == Last(b).(run := r.(waiting := r.waiting - {f}, failed := r.failed + {f}))
  {
    hide ReliableBehaviour;
    var w := Last(b);
    var w' := w.(run := w.run.(waiting := w.run.waiting - {f}, failed := w.run.failed + {f}));
    assert ErrorArrives(w, w', f);
    c := Then(inputs, b, w');
  }

  // All results arrive, some of them failures.
  lemma {:induction false} Collect(inputs: map<string, string>, b: seq<World>, failing: set<string>)
    returns (c: seq<World>)
    requires b != [] && ReliableBehaviour(inputs, b) && Last(b).run.phase == Collecting
    requires Last(b).run.waiting <= inputs.Keys
    requires forall f :: f in inputs && f !in failing ==> ScanLines(inputs[f]).complete
    ensures c != [] && ReliableBehaviour(inputs, c)
    ensures var r, r' := Last(b).run, Last(c).run;
      && r'.phase == Collecting && r'.waiting == {} && r'.all == r.all && r'.nothingPending == r.nothingPending
      && r'.failed == r.failed + r.waiting * failing
      && Elements(r'.tally.completed) == Elements(r.tally.completed) + (r.waiting - failing)
    decreases Last(b).run.waiting
  {
    hide ReliableBehaviour, ScanLines, Merge, Kept, NumbersOf, SnapshotOf;
    if Last(b).run.waiting == {} {
      c := b;
    } else {
      var f :| f in Last(b).run.waiting;
      if f in failing {
        c := Fail(inputs, b, f);
      } else {
        c := Arrive(inputs, b, f);
        MergeCompletes(Last(b).run.tally, f, Kept(NumbersOf(inputs[f])));
        c := Save(inputs, c);
      }
      c := Collect(inputs, c, failing);
    }
  }

  // A run that is about to write its output, with some prime in it, writes it.
  lemma WriteOutput(inputs: map<string, string>, b: seq<World>) returns (c: seq<World>)
    requires b != [] && ReliableBehaviour(inputs, b) && Last(b).run.phase == OutDelete
    requires OutputText(Last(b).run.tally.primes) != ""
    ensures |c| > |b| && ReliableBehaviour(inputs, c)
    ensures var w := Last(b);
      Last(c) == w.(disk := w.disk.(output := Holds(OutputText(w.run.tally.primes))),
                    run := w.run.(phase := if w.run.nothingPending then Done else Cleanup))
    ensures c[|c| - 2].run.phase == OutStore
  {
    hide ReliableBehaviour, OutputText;
    var w := Last(b);
    var text := OutputText(w.run.tally.primes);
    var w1 := w.(disk := w.disk.(output := Absent), run := w.run.(phase := OutCreate));
    var w2 := w.(disk := w.disk.(output := Empty), run := w.run.(phase := OutStore));
    var w3 := w.(disk := w.disk.(output := Holds(text)),
                 run := w.run.(phase := if w.run.nothingPending then Done else Cleanup));
    assert WriteStep(w, w1);
    c := Then(inputs, b, w1);
    assert Creates(w1.disk.output, w2.disk.output, true) && WriteStep(w1, w2);
    c := Then(inputs, c, w2);
    assert Stores(w2.disk.output, w3.disk.output, text, false, true) && WriteStep(w2, w3);
    c := Then(inputs, c, w3);
  }

  // A run that has all its results, with some prime among them, writes its output and ends.
  lemma Complete(inputs: map<string, string>, b: seq<World>) returns (c: seq<World>)
    requires b != [] && ReliableBehaviour(inputs, b) && Last(b).run.phase == Collecting && Last(b).run.waiting == {}
    requires OutputText(Last(b).run.tally.primes) != "" && !Last(b).run.nothingPending
    ensures c != [] && ReliableBehaviour(inputs, c) && Last(c).run == Last(b).run.(phase := Done)
  {
    hide ReliableBehaviour, OutputText;
    var w := Last(b);
    var w1 := w.(run := w.run.(phase := OutDelete));
    assert WriteStep(w, w1);
    c := Then(inputs, b, w1);
    c := WriteOutput(inputs, c);
    var w2 := Last(c);
    var w3 := w2.(disk := w2.disk.(snapshot := Absent), run := w.run.(phase := Done));
    assert WriteStep(w2, w3);
    c := Then(inputs, c, w3);
  }

  lemma {:induction false} Listed(s: set<string>) returns (l: seq<string>)
    ensures Elements(l) == s
  {
    l := [];
    if s != {} {
      var x :| x in s;
      var rest := Listed(s - {x});
      l := rest + [x];
      assert Elements(l) == Elements(rest) + {x};
    }
  }

  // Whichever files fail, as long as the others are readable and hold a prime, a run completes
  // with exactly those failures, without a single failed AFS call.
  lemma EveryOutcomeIsPossible(inputs: map<string, string>, failing: set<string>) returns (b: seq<World>)
    requires failing <= inputs.Keys && PrimesIn(inputs, inputs.Keys - failing) != {}
    requires forall f :: f in inputs && f !in failing ==> ScanLines(inputs[f]).complete
    ensures b != [] && ReliableBehaviour(inputs, b) && Last(b).run.phase == Done
    ensures Elements(Last(b).run.all) == inputs.Keys && Last(b).run.failed == failing
    ensures Elements(Last(b).run.tally.completed) == inputs.Keys - failing
  {
    hide ReliableBehaviour, ScanLines, OutputText;
    assert inputs.Keys != {} by { PrimesNeedFiles(inputs, failing); }
    var all := Listed(inputs.Keys);
    assert Elements(all) != {};
    b := StartOn(inputs, all);
    assert Elements<string>([]) == {};
    b := Collect(inputs, b, failing);
    assert inputs.Keys * failing == failing;
    TallyHasPrimes(inputs, b);
    b := Complete(inputs, b);
  }

  lemma PrimesNeedFiles(inputs: map<string, string>, failing: set<string>)
    requires PrimesIn(inputs, inputs.Keys - failing) != {}
    ensures inputs.Keys != {}
  {
    hide Kept, NumbersOf;
  }

  lemma TallyHasPrimes(inputs: map<string, string>, b: seq<World>)
    requires b != [] && ReliableBehaviour(inputs, b)
    ensures PrimesIn(inputs, Elements(Last(b).run.tally.completed)) != {} ==>
      OutputText(Last(b).run.tally.primes) != ""
  {
    hide OutputText, PrimesIn;
    ReliableIsBehaviour(inputs, b);
    hide ReliableBehaviour;
    BehaviourInv(inputs, b, |b| - 1);
    NothingToPrint(Last(b).run.tally.primes);
  }

  ghost predicate CompletesFully(inputs: map<string, string>, b: seq<World>)
  {
    && b != [] && Behaviour(inputs, b) && Last(b).run.phase == Done
    && Last(b).run.failed == {} && Elements(Last(b).run.all) == inputs.Keys
  }

  // Some history ends in a run over all files without a failure exactly when all files are
  // readable and one of them holds a prime.
  lemma SomeRunCompletesIff(inputs: map<string, string>)
    ensures (exists b :: CompletesFully(inputs, b)) <==>
      && (forall f :: f in inputs ==> ScanLines(inputs[f]).complete)
      && PrimesIn(inputs, inputs.Keys) != {}
  {
    hide ScanLines, PrimesIn, Behaviour, ReliableBehaviour;
    if b :| CompletesFully(inputs, b) {
      AllWereReadable(inputs, b);
    }
    if (forall f :: f in inputs ==> ScanLines(inputs[f]).complete) && PrimesIn(inputs, inputs.Keys) != {} {
      assert inputs.Keys - {} == inputs.Keys;
      var b := EveryOutcomeIsPossible(inputs, {});
      ReliableIsBehaviour(inputs, b);
      assert CompletesFully(inputs, b);
    }
  }

  lemma AllWereReadable(inputs: map<string, string>, b: seq<World>)
    requires CompletesFully(inputs, b)
    ensures (forall f :: f in inputs ==> ScanLines(inputs[f]).complete) && PrimesIn(inputs, inputs.Keys) != {}
  {
    hide ScanLines, PrimesIn, OutputText;
    BehaviourInv(inputs, b, |b| - 1);
    CompletedRunHasPrimes(inputs, b, |b| - 1);
    CompletedRunOutput(inputs, b, |b| - 1);
    assert Elements(Last(b).run.tally.completed) == inputs.Keys;
    forall f | f in inputs
      ensures ScanLines(inputs[f]).complete
    {
      assert f in Elements(Last(b).run.tally.completed);
    }
  }

  // A file that fails on every worker, and whose primes are in no other file, is missing from
  // the output of a run that ends without an error.
  lemma FailedFileIsOnlyLogged(inputs: map<string, string>, g: string, n: uint64) returns (b: seq<World>)
    requires g in inputs && PrimesIn(inputs, inputs.Keys - {g}) != {}
    requires forall f :: f in inputs && f != g ==> ScanLines(inputs[f]).complete
    requires n in PrimesIn(inputs, inputs.Keys) && n !in PrimesIn(inputs, inputs.Keys - {g})
    ensures b != [] && ReliableBehaviour(inputs, b) && Last(b).run.phase == Done && Last(b).run.failed == {g}
    ensures Last(b).disk.output != Holds(ExpectedOutput(inputs))
  {
    hide ScanLines, PrimesIn, Behaviour, ReliableBehaviour, ExpectedOutput;
    b := EveryOutcomeIsPossible(inputs, {g});
    ReliableIsBehaviour(inputs, b);
    OutputIsExpectedIff(inputs, b, |b| - 1);
  }

  // With any two readable files there is a history, without a single failed AFS call, in
  // which a crash loses both of them: the promised bound of one file does not hold.
  lemma CrashCanLoseTwoFiles(inputs: map<string, string>, f: string, g: string) returns (b: seq<World>)
    requires f != g && f in inputs && g in inputs
    requires ScanLines(inputs[f]).complete && ScanLines(inputs[g]).complete
    ensures b != [] && ReliableBehaviour(inputs, b)
    ensures |b| > 2 && |b[|b| - 2].run.tally.completed| == 2
    ensures Last(b).run == NO_RUN && Recoverable(Last(b).disk) == 0
  {
    hide Kept, NumbersOf, ScanLines, MergePrimes, ReliableBehaviour, SnapshotOf;
    var all := [f, g];
    assert Elements(all) == {f, g};
    b := StartOn(inputs, all);
    b := Arrive(inputs, b, f);
    b := Save(inputs, b);
    b := Arrive(inputs, b, g);
    b := DeleteSnapshot(inputs, b);
    assert Crash(Last(b), Last(b).(run := NO_RUN));
    b := Then(inputs, b, Last(b).(run := NO_RUN));
  }

  // A crash right after a run's only file is saved; the next run finds nothing pending, writes
  // the output and leaves the snapshot.
  lemma SnapshotIsLeftBehind(inputs: map<string, string>, f: string) returns (b: seq<World>)
    requires f in inputs && ScanLines(inputs[f]).complete && PrimesIn(inputs, {f}) != {}
    ensures |b| > 2 && ReliableBehaviour(inputs, b) && Last(b).run.phase == Done && b[|b| - 2].run.phase != Done
    ensures Last(b).run.nothingPending && Last(b).disk.snapshot.Holds?
  {
    hide Kept, NumbersOf, ScanLines, MergePrimes, ReliableBehaviour, OutputText, PrimesIn;
    var all := [f];
    assert Elements(all) == {f};
    b := StartOn(inputs, all);
    b := Arrive(inputs, b, f);
    b := Save(inputs, b);
    var w := Last(b);
    assert w.run.tally.completed == [f];
    var w1 := w.(run := NO_RUN);
    assert Crash(w, w1);
    b := Then(inputs, b, w1);
    var w2 := w1.(run := Run(OutDelete, all, w.run.tally, {}, {}, true));
    PendingIsTheRest(all, w.run.tally.completed);
    assert Start(inputs, w1, w2, all, true);
    b := Then(inputs, b, w2);
    TallyHasPrimes(inputs, b);
    b := WriteOutput(inputs, b);
  }

  // With any two readable files there is a history in which both saves fail when the snapshot
  // is to be created: the run goes on, and a crash loses both files outside any save.
  lemma FailedSavesLoseTwoFiles(inputs: map<string, string>, f: string, g: string) returns (b: seq<World>)
    requires f != g && f in inputs && g in inputs
    requires ScanLines(inputs[f]).complete && ScanLines(inputs[g]).complete
    ensures b != [] && Behaviour(inputs, b) && Last(b).run.phase == Collecting
    ensures |Last(b).run.tally.completed| == 2 && Recoverable(Last(b).disk) == 0
  {
    hide Kept, NumbersOf, ScanLines, MergePrimes, Behaviour, ReliableBehaviour, SnapshotOf, PossibleTry, OutputText;
    var all := [f, g];
    assert Elements(all) == {f, g};
    b := StartOn(inputs, all);
    b := Arrive(inputs, b, f);
    b := DeleteSnapshot(inputs, b);
    ReliableIsBehaviour(inputs, b);
    var w := Last(b);
    var w1 := w.(run := w.run.(phase := Collecting));
    FailedCreate(w, w1);
    b := ThenAny(inputs, b, w1);
    var result := Received(Kept(NumbersOf(inputs[g])), |NumbersOf(inputs[g])|);
    WholeTryIsPossible(inputs[g]);
    var r := w.run.(phase := SnapDelete, waiting := w.run.waiting - {g},
                    tally := Merge(w.run.tally, g, result.primes));
    var w2 := w.(run := r);
    assert ResultArrives(inputs, w1, w2, g, result);
    b := ThenAny(inputs, b, w2);
    var w3 := w.(run := r.(phase := SnapCreate));
    assert SaveStep(w2, w3);
    b := ThenAny(inputs, b, w3);
    var w4 := w.(run := r.(phase := Collecting));
    FailedCreate(w3, w4);
    b := ThenAny(inputs, b, w4);
  }

  lemma FailedCreate(w: World, w': World)
    requires w.run.phase == SnapCreate && w' == w.(run := w.run.(phase := Collecting))
    ensures SaveStep(w, w')
  {
    assert Creates(w.disk.snapshot, w'.disk.snapshot, false);
  }

  lemma ThenAny(inputs: map<string, string>, b: seq<World>, w: World) returns (c: seq<World>)
    requires b != [] && Behaviour(inputs, b) && RunStep(inputs, Last(b), w)
    ensures |c| > |b| && Behaviour(inputs, c) && Last(c) == w
  {
    hide RunStep, Init;
    c := b + [w];
    assert Step(inputs, Last(b), w);
  }
}
