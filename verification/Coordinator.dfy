/**
 The coordinator: what is pending, who gets which file, how results are merged, and what
 the final output file holds. Crashes and restarts are the subject of module Recovery.
 */
module Coordinator {
  import opened Words
  import opened Sequences
  import opened Decimal
  import opened Worker
  import Congruence

  // ---------- Sorted output ----------

  ghost predicate StrictlyIncreasing(s: seq<uint64>)
  {
    forall i, j :: 0 <= i < j < |s| ==> s[i] < s[j]
  }

  lemma {:induction false} StrictlyIncreasingUnique(s: seq<uint64>, t: seq<uint64>)
    requires StrictlyIncreasing(s) && StrictlyIncreasing(t) && Elements(s) == Elements(t)
    ensures s == t
  {
    if s == [] || t == [] {
      EmptyElements(s);
      EmptyElements(t);
    } else {
      var m, n := |s| - 1, |t| - 1;
      assert s[m] in Elements(t) && t[n] in Elements(s);
      assert s[m] == t[n];
      WithoutLast(s);
      WithoutLast(t);
      StrictlyIncreasingUnique(s[..m], t[..n]);
      assert s == s[..m] + [s[m]] && t == t[..n] + [t[n]];
    }
  }

  lemma EmptyElements(s: seq<uint64>)
    ensures s == [] <==> Elements(s) == {}
  {
    if s != [] { assert s[0] in Elements(s); }
  }

  lemma WithoutLast(s: seq<uint64>)
    requires s != [] && StrictlyIncreasing(s)
    ensures Elements(s[..|s| - 1]) == Elements(s) - {s[|s| - 1]}
  {
    assert s == s[..|s| - 1] + [s[|s| - 1]];
  }

  // The elements of a set of words in increasing order.
  ghost function Ascending(s: set<uint64>): (u: seq<uint64>)
    ensures StrictlyIncreasing(u) && Elements(u) == s
  {
    if s == {} then []
    else
      LargestExists(s);
      var m :| m in s && forall x :: x in s ==> x <= m;
      var front := Ascending(s - {m});
      AppendLargest(front, m);
      front + [m]
  }

  lemma AppendLargest(front: seq<uint64>, m: uint64)
    requires StrictlyIncreasing(front) && m !in Elements(front) && forall x :: x in Elements(front) ==> x <= m
    ensures StrictlyIncreasing(front + [m]) && Elements(front + [m]) == Elements(front) + {m}
  {
    assert forall i :: 0 <= i < |front| ==> front[i] in Elements(front);
  }

  lemma LargestExists(s: set<uint64>)
    requires s != {}
    ensures exists m :: m in s && forall x :: x in s ==> x <= m
  {
    var m := Largest(s);
  }

  lemma {:induction false} Largest(s: set<uint64>) returns (m: uint64)
    requires s != {}
    ensures m in s && forall x :: x in s ==> x <= m
    decreases |s|
  {
    m :| m in s;
    var rest := s - {m};
    assert forall x :: x in s ==> x == m || x in rest;
    if rest != {} {
      var best := Largest(rest);
      m := if best < m then m else best;
    }
  }

  // Keys of a map are listed in no particular order, then sorted.
  method DedupAndSort(primes: seq<uint64>) returns (unique: seq<uint64>)
    ensures unique == Ascending(Elements(primes))
  {
    var seen := BuildSeenSet(primes);
    unique := [];
    var rest := seen;
    while rest != {}
      invariant rest <= seen && StrictlyIncreasing(unique) && Elements(unique) == seen - rest
      decreases rest
    {
      var p :| p in rest;
      rest := rest - {p};
      unique := InsertInOrder(unique, p);
    }
    StrictlyIncreasingUnique(unique, Ascending(seen));
  }

  method InsertInOrder(sorted: seq<uint64>, p: uint64) returns (result: seq<uint64>)
    requires StrictlyIncreasing(sorted) && p !in Elements(sorted)
    ensures StrictlyIncreasing(result) && Elements(result) == Elements(sorted) + {p}
  {
    var i := 0;
    while i < |sorted| && sorted[i] < p
      invariant 0 <= i <= |sorted|
      invariant forall k :: 0 <= k < i ==> sorted[k] < p
    {
      i := i + 1;
    }
    if i < |sorted| { assert sorted[i] in Elements(sorted); }
    InsertAt(sorted[..i], p, sorted[i..]);
    assert sorted == sorted[..i] + sorted[i..];
    result := sorted[..i] + [p] + sorted[i..];
  }

  lemma InsertAt(low: seq<uint64>, p: uint64, high: seq<uint64>)
    requires StrictlyIncreasing(low + high)
    requires forall k :: 0 <= k < |low| ==> low[k] < p
    requires high != [] ==> p < high[0]
    ensures StrictlyIncreasing(low + [p] + high)
    ensures Elements(low + [p] + high) == Elements(low + high) + {p}
  {
    var all, s := low + [p] + high, low + high;
    forall i, j | 0 <= i < j < |all|
      ensures all[i] < all[j]
    {
      if i != |low| && j != |low| {
        var i', j' := if i < |low| then i else i - 1, if j < |low| then j else j - 1;
        assert all[i] == s[i'] && all[j] == s[j'];
      } else if i == |low| {
        assert all[j] == s[j - 1] && (j - 1 > |low| ==> s[|low|] < s[j - 1]);
      }
    }
  }

  method BuildSeenSet(primes: seq<uint64>) returns (seen: set<uint64>)
    ensures seen == Elements(primes)
  {
    seen := {};
    for i := 0 to |primes|
      invariant seen == Elements(primes[..i])
    {
      assert primes[..i + 1] == primes[..i] + [primes[i]];
      seen := seen + {primes[i]};
    }
    assert primes[..|primes|] == primes;
  }

  // ---------- Pending files and their assignment ----------

  function Pending(all: seq<string>, completed: seq<string>): seq<string>
  {
    if all == [] then []
    else
      var front := Pending(all[..|all| - 1], completed);
      if all[|all| - 1] in completed then front else front + [all[|all| - 1]]
  }

  // The pending files are exactly the discovered files that are not completed.
  lemma {:induction false} PendingIsTheRest(all: seq<string>, completed: seq<string>)
    ensures Elements(Pending(all, completed)) == Elements(all) - Elements(completed)
    ensures NoDuplicates(all) ==> NoDuplicates(Pending(all, completed))
  {
    if all == [] {
    } else {
      var front, f := all[..|all| - 1], all[|all| - 1];
      PendingIsTheRest(front, completed);
      assert all == front + [f];
      var p := Pending(front, completed);
      assert forall x :: x in p ==> x in Elements(p);
      assert Elements(all) == Elements(front) + {f};
      assert Elements(p + [f]) == Elements(p) + {f};
      assert f in completed <==> f in Elements(completed);
      if NoDuplicates(all) { assert f !in front; }
    }
  }

  method FilterPending(all: seq<string>, completed: seq<string>) returns (pending: seq<string>)
    ensures pending == Pending(all, completed)
  {
    var done: set<string> := {};
    for i := 0 to |completed|
      invariant done == Elements(completed[..i])
    {
      assert completed[..i + 1] == completed[..i] + [completed[i]];
      done := done + {completed[i]};
    }
    assert completed[..|completed|] == completed;
    pending := [];
    for i := 0 to |all|
      invariant pending == Pending(all[..i], completed)
    {
      assert all[..i + 1][..i] == all[..i];
      if all[i] !in done {
        pending := pending + [all[i]];
      }
    }
    assert all[..|all|] == all;
  }

  // The position of the worker that file i goes to.
  function Turn(i: nat, n: nat): (r: nat)
    requires n > 0
    ensures r < n
  {
    i % n
  }

  // Of the first m files, those given to a worker address: file i goes to workers[i % n].
  function AssignedTo(files: seq<string>, workers: seq<string>, addr: string, m: nat): seq<string>
    requires m <= |files| && (m > 0 ==> workers != [])
  {
    if m == 0 then []
    else if workers[Turn(m - 1, |workers|)] == addr then AssignedTo(files, workers, addr, m - 1) + [files[m - 1]]
    else AssignedTo(files, workers, addr, m - 1)
  }

  function LoadOf(assignments: map<string, seq<string>>, addr: string): seq<string>
  {
    if addr in assignments then assignments[addr] else []
  }

  method AssignFiles(files: seq<string>, workers: seq<string>) returns (assignments: map<string, seq<string>>)
    requires files != [] ==> workers != []
    ensures forall addr :: LoadOf(assignments, addr) == AssignedTo(files, workers, addr, |files|)
    ensures assignments.Keys <= Elements(workers)
  {
    assignments := map[];
    for i := 0 to |files|
      invariant assignments.Keys <= Elements(workers)
      invariant forall addr :: LoadOf(assignments, addr) == AssignedTo(files, workers, addr, i)
    {
      var w := workers[i % |workers|];
      var load := LoadOf(assignments, w);
      assignments := assignments[w := load + [files[i]]];
    }
  }

  // How many results the first k workers send when m files are assigned. Each worker looks
  // up its own address, so workers that share one each process its whole load.
  function ResultsSent(files: seq<string>, workers: seq<string>, k: nat, m: nat): nat
    requires workers != [] && k <= |workers| && m <= |files|
  {
    if k == 0 then 0 else ResultsSent(files, workers, k - 1, m) + |AssignedTo(files, workers, workers[k - 1], m)|
  }

  lemma {:induction false} OneMoreFile(files: seq<string>, workers: seq<string>, k: nat, m: nat)
    requires workers != [] && k <= |workers| && 0 < m <= |files|
    ensures ResultsSent(files, workers, k, m) ==
      ResultsSent(files, workers, k, m - 1) + multiset(workers[..k])[workers[Turn(m - 1, |workers|)]]
  {
    if k == 0 {
    } else {
      hide Turn;
      OneMoreFile(files, workers, k - 1, m);
      Occurrences(workers, k, workers[Turn(m - 1, |workers|)]);
    }
  }

  lemma Occurrences(workers: seq<string>, k: nat, w: string)
    requires 0 < k <= |workers|
    ensures multiset(workers[..k])[w] == multiset(workers[..k - 1])[w] + if workers[k - 1] == w then 1 else 0
  {
    assert workers[..k] == workers[..k - 1] + [workers[k - 1]];
  }

  lemma {:induction false} NoFiles(files: seq<string>, workers: seq<string>, k: nat)
    requires workers != [] && k <= |workers|
    ensures ResultsSent(files, workers, k, 0) == 0
  {
    if k == 0 {
    } else {
      NoFiles(files, workers, k - 1);
    }
  }

  // Exactly one result per file is sent, so that they fit the result channel, if and only if
  // no worker that is given a file shares its address with another one.
  lemma {:induction false} EveryFileIsSentOnce(files: seq<string>, workers: seq<string>, m: nat)
    requires workers != [] && m <= |files|
    ensures ResultsSent(files, workers, |workers|, m) >= m
    ensures ResultsSent(files, workers, |workers|, m) == m <==>
      forall i :: 0 <= i < m ==> multiset(workers)[workers[Turn(i, |workers|)]] == 1
  {
    hide Turn;
    var n := |workers|;
    if m == 0 {
      NoFiles(files, workers, n);
    } else {
      OneMoreFile(files, workers, n, m);
      EveryFileIsSentOnce(files, workers, m - 1);
      assert workers[..n] == workers;
      var w := workers[Turn(m - 1, n)];
      assert w in workers;
      assert w in multiset(workers);
    }
  }

  lemma {:induction false} DistinctOccurOnce(workers: seq<string>, w: string)
    requires NoDuplicates(workers) && w in workers
    ensures multiset(workers)[w] == 1
  {
    var front, last := workers[..|workers| - 1], workers[|workers| - 1];
    assert workers == front + [last];
    if w != last {
      DistinctOccurOnce(front, w);
    } else {
      assert w !in front;
      assert w !in multiset(front);
    }
  }

  // Distinct addresses: one result per file.
  lemma DistinctWorkersSendOnce(files: seq<string>, workers: seq<string>)
    requires workers != [] && NoDuplicates(workers)
    ensures ResultsSent(files, workers, |workers|, |files|) == |files|
  {
    forall i | 0 <= i < |files|
      ensures multiset(workers)[workers[Turn(i, |workers|)]] == 1
    {
      DistinctOccurOnce(workers, workers[Turn(i, |workers|)]);
    }
    EveryFileIsSentOnce(files, workers, |files|);
  }

  // With distinct addresses loads differ by at most one file: m / n files each, and one
  // more for the first m % n workers.
  lemma {:induction false} LoadsAreBalanced(files: seq<string>, workers: seq<string>, k: nat, m: nat)
    requires k < |workers| && NoDuplicates(workers) && m <= |files|
    ensures |AssignedTo(files, workers, workers[k], m)| == m / |workers| + if k < m % |workers| then 1 else 0
  {
    var n := |workers|;
    if m == 0 {
      assert 0 / n == 0 && 0 % n == 0;
    } else {
      LoadsAreBalanced(files, workers, k, m - 1);
      NextQuotient(m - 1, n);
    }
  }

  // And the load of worker k is the files at positions k, k + n, k + 2n, ..., in this order.
  lemma {:induction false} LoadIsEveryNth(files: seq<string>, workers: seq<string>, k: nat, m: nat, j: nat)
    requires k < |workers| && NoDuplicates(workers) && m <= |files|
    requires j < |AssignedTo(files, workers, workers[k], m)|
    ensures 0 <= |workers| * j + k < m
    ensures AssignedTo(files, workers, workers[k], m)[j] == files[|workers| * j + k]
  {
    if m > 0 {
      var before := AssignedTo(files, workers, workers[k], m - 1);
      if j < |before| {
        LoadIsEveryNth(files, workers, k, m - 1, j);
      } else {
        LoadsAreBalanced(files, workers, k, m - 1);
        assert (m - 1) % |workers| == k && j == (m - 1) / |workers|;
        DivMod(m - 1, |workers|);
      }
    }
  }

  lemma DivMod(m: nat, n: nat)
    requires n > 0
    ensures n * (m / n) + m % n == m
  {
  }

  lemma NextQuotient(m: nat, n: nat)
    requires n > 0
    ensures if m % n == n - 1 then (m + 1) / n == m / n + 1 && (m + 1) % n == 0
            else (m + 1) / n == m / n && (m + 1) % n == m % n + 1
  {
    var q, r := m / n, m % n;
    assert m == q * n + r;
    if r == n - 1 {
      assert m + 1 == (q + 1) * n + 0;
      Congruence.ModUnique(m + 1, q + 1, 0, n);
    } else {
      Congruence.ModUnique(m + 1, q, r + 1, n);
    }
  }

  // The first success among the workers from position i on whose id is not the given one.
  function FirstSuccess(ids: seq<string>, id: string, attempt: seq<WorkerResult>, i: nat): WorkerResult
    requires |attempt| == |ids| && i <= |ids|
    decreases |ids| - i
  {
    if i == |ids| then Failed
    else if ids[i] != id && attempt[i].Received? then attempt[i]
    else FirstSuccess(ids, id, attempt, i + 1)
  }

  // The result of a file whose own worker is at the given position; attempt[i] is what worker i
  // would make of it.
  function FileResult(ids: seq<string>, own: nat, attempt: seq<WorkerResult>): WorkerResult
    requires own < |ids| == |attempt|
  {
    if attempt[own].Received? then attempt[own] else FirstSuccess(ids, ids[own], attempt, 0)
  }

  // One file, tried on its own worker and then on each other one until a try succeeds.
  method ProcessOneFile(ids: seq<string>, own: nat, attempt: seq<WorkerResult>) returns (result: WorkerResult)
    requires own < |ids| == |attempt|
    ensures result == FileResult(ids, own, attempt)
  {
    result := attempt[own];
    if result.Received? {
      return;
    }
    for i := 0 to |ids|
      invariant FirstSuccess(ids, ids[own], attempt, 0) == FirstSuccess(ids, ids[own], attempt, i)
    {
      if ids[i] == ids[own] {
        continue;
      }
      result := attempt[i];
      if result.Received? {
        return;
      }
    }
    result := Failed;
  }

  // A file succeeds exactly when its own worker or one with another id succeeds on it, with
  // the result of such a worker.
  lemma SucceedsIffSomeWorkerDoes(ids: seq<string>, own: nat, attempt: seq<WorkerResult>)
    requires own < |ids| == |attempt|
    ensures var result := FileResult(ids, own, attempt);
      && (result.Received? <==>
            exists i :: 0 <= i < |ids| && (i == own || ids[i] != ids[own]) && attempt[i].Received?)
      && (result.Received? ==> result in attempt)
      && (attempt[own].Received? ==> result == attempt[own])
  {
    FirstSuccessMeans(ids, ids[own], attempt, 0);
  }

  lemma {:induction false} FirstSuccessMeans(ids: seq<string>, id: string, attempt: seq<WorkerResult>, i: nat)
    requires |attempt| == |ids| && i <= |ids|
    ensures var result := FirstSuccess(ids, id, attempt, i);
      && (result.Received? <==> exists j :: i <= j < |ids| && ids[j] != id && attempt[j].Received?)
      && (result.Received? ==> result in attempt)
    decreases |ids| - i
  {
    if i < |ids| {
      FirstSuccessMeans(ids, id, attempt, i + 1);
    }
  }

  // How often the first k workers process file f when m files are assigned.
  function TimesProcessed(files: seq<string>, workers: seq<string>, k: nat, m: nat, f: string): nat
    requires workers != [] && k <= |workers| && m <= |files|
  {
    if k == 0 then 0
    else TimesProcessed(files, workers, k - 1, m, f) + multiset(AssignedTo(files, workers, workers[k - 1], m))[f]
  }

  lemma LoadOneMore(files: seq<string>, workers: seq<string>, addr: string, m: nat, f: string)
    requires workers != [] && 0 < m <= |files|
    ensures multiset(AssignedTo(files, workers, addr, m))[f]
         == multiset(AssignedTo(files, workers, addr, m - 1))[f]
          + if workers[Turn(m - 1, |workers|)] == addr && files[m - 1] == f then 1 else 0
  {
    hide Turn;
  }

  lemma {:induction false} ProcessedOneMore(files: seq<string>, workers: seq<string>, k: nat, m: nat, f: string)
    requires workers != [] && k <= |workers| && 0 < m <= |files|
    ensures TimesProcessed(files, workers, k, m, f) == TimesProcessed(files, workers, k, m - 1, f)
      + if files[m - 1] == f then multiset(workers[..k])[workers[Turn(m - 1, |workers|)]] else 0
  {
    hide AssignedTo, Turn;
    if k == 0 {
    } else {
      ProcessedOneMore(files, workers, k - 1, m, f);
      LoadOneMore(files, workers, workers[k - 1], m, f);
      Occurrences(workers, k, workers[Turn(m - 1, |workers|)]);
    }
  }

  lemma {:induction false} NoneProcessed(files: seq<string>, workers: seq<string>, k: nat, f: string)
    requires workers != [] && k <= |workers|
    ensures TimesProcessed(files, workers, k, 0, f) == 0
  {
    if k == 0 {
    } else {
      NoneProcessed(files, workers, k - 1, f);
    }
  }

  // The workers process between them the given files and no others, and with distinct addresses
  // each as often as it is listed.
  lemma {:induction false} AssignmentIsAPartition(files: seq<string>, workers: seq<string>, m: nat, f: string)
    requires workers != [] && m <= |files|
    ensures TimesProcessed(files, workers, |workers|, m, f) > 0 <==> f in files[..m]
    ensures NoDuplicates(workers) ==> TimesProcessed(files, workers, |workers|, m, f) == multiset(files[..m])[f]
  {
    if m == 0 {
      NoneProcessed(files, workers, |workers|, f);
    } else {
      hide TimesProcessed, Turn, AssignedTo;
      AssignmentIsAPartition(files, workers, m - 1, f);
      ProcessedOneMore(files, workers, |workers|, m, f);
      assert files[..m] == files[..m - 1] + [files[m - 1]];
      assert workers[..|workers|] == workers;
      var w := workers[Turn(m - 1, |workers|)];
      assert w in workers && w in multiset(workers);
      if NoDuplicates(workers) { DistinctOccurOnce(workers, w); }
    }
  }

  // ---------- Merging results ----------

  // What a run knows, and what a snapshot records besides the derived pending list.
  datatype Tally = Tally(completed: seq<string>, primes: seq<uint64>)

  datatype Snapshot = Snapshot(completed: seq<string>, pending: seq<string>, primes: seq<uint64>)

  function MergePrimes(collected: seq<uint64>, primes: seq<uint64>): seq<uint64>
  {
    if primes == [] then collected
    else
      var merged := MergePrimes(collected, primes[..|primes| - 1]);
      if primes[|primes| - 1] in merged then merged else merged + [primes[|primes| - 1]]
  }

  function Merge(t: Tally, file: string, primes: seq<uint64>): Tally
  {
    Tally(t.completed + [file], MergePrimes(t.primes, primes))
  }

  function Resume(existing: Option<Snapshot>): Tally
  {
    match existing
    case None => Tally([], [])
    case Some(snap) => Tally(snap.completed, snap.primes)
  }

  function SnapshotOf(all: seq<string>, t: Tally): Snapshot
  {
    Snapshot(t.completed, Pending(all, t.completed), t.primes)
  }

  ghost function OutputText(primes: seq<uint64>): string
  {
    PrintLines(Ascending(Elements(primes)))
  }

  lemma {:induction false} MergePrimesIsUnion(collected: seq<uint64>, primes: seq<uint64>)
    requires NoDuplicates(collected)
    ensures Elements(MergePrimes(collected, primes)) == Elements(collected) + Elements(primes)
    ensures NoDuplicates(MergePrimes(collected, primes))
  {
    if primes == [] {
    } else {
      var front, p := primes[..|primes| - 1], primes[|primes| - 1];
      MergePrimesIsUnion(collected, front);
      var merged := MergePrimes(collected, front);
      assert primes == front + [p];
      assert Elements(primes) == Elements(front) + {p};
      assert Elements(merged + [p]) == Elements(merged) + {p};
      assert p in merged <==> p in Elements(merged);
    }
  }

  // ---------- What a tally stands for ----------

  // The accepted numbers of the given files.
  ghost function PrimesIn(inputs: map<string, string>, files: set<string>): set<uint64>
  {
    set f, n | f in files && f in inputs && n in Kept(NumbersOf(inputs[f])) :: n
  }

  // Exactly the primes of the completed files, each once.
  ghost predicate Tallied(t: Tally, inputs: map<string, string>)
  {
    && NoDuplicates(t.primes) && Elements(t.completed) <= inputs.Keys
    && Elements(t.primes) == PrimesIn(inputs, Elements(t.completed))
  }

  // And no file is listed twice.
  ghost predicate Accurate(t: Tally, inputs: map<string, string>)
  {
    Tallied(t, inputs) && NoDuplicates(t.completed)
  }

  lemma MergeKeepsTallied(t: Tally, inputs: map<string, string>, file: string)
    requires Tallied(t, inputs) && file in inputs
    ensures Tallied(Merge(t, file, Kept(NumbersOf(inputs[file]))), inputs)
  {
    hide Kept, NumbersOf, MergePrimes;
    var kept := Kept(NumbersOf(inputs[file]));
    MergePrimesIsUnion(t.primes, kept);
    assert Elements(t.completed + [file]) == Elements(t.completed) + {file};
  }

  lemma MergeKeepsAccurate(t: Tally, inputs: map<string, string>, file: string)
    requires Accurate(t, inputs) && file in inputs && file !in t.completed
    ensures Accurate(Merge(t, file, Kept(NumbersOf(inputs[file]))), inputs)
  {
    hide Kept, NumbersOf, MergePrimes, Tallied;
    MergeKeepsTallied(t, inputs, file);
  }

  // ---------- The coordinator's own state ----------

  datatype Arrival = Arrival(file: string, result: WorkerResult)

  function MergeAll(t: Tally, arrivals: seq<Arrival>): Tally
  {
    if arrivals == [] then t
    else
      var before := MergeAll(t, arrivals[..|arrivals| - 1]);
      var last := arrivals[|arrivals| - 1];
      if last.result.Failed? then before else Merge(before, last.file, last.result.primes)
  }

  // One snapshot after each arrival without an error.
  function SnapshotsTaken(all: seq<string>, t: Tally, arrivals: seq<Arrival>): seq<Snapshot>
  {
    if arrivals == [] then []
    else
      var before := SnapshotsTaken(all, t, arrivals[..|arrivals| - 1]);
      if arrivals[|arrivals| - 1].result.Failed? then before else before + [SnapshotOf(all, MergeAll(t, arrivals))]
  }

  class CoordinatorState {
    var seen: set<uint64>
    var collectedPrimes: seq<uint64>
    var completedFiles: seq<string>

    ghost function Now(): Tally
      reads this
    {
      Tally(completedFiles, collectedPrimes)
    }

    ghost predicate Valid()
      reads this
    {
      seen == Elements(collectedPrimes)
    }

    constructor (existing: Option<Snapshot>)
      ensures Valid() && Now() == Resume(existing)
    {
      if existing.Some? {
        completedFiles, collectedPrimes := existing.value.completed, existing.value.primes;
      } else {
        completedFiles, collectedPrimes := [], [];
      }
      new;
      seen := BuildSeenSet(collectedPrimes);
    }

    method MergeResult(file: string, primes: seq<uint64>)
      requires Valid()
      modifies this
      ensures Valid() && Now() == Merge(old(Now()), file, primes)
    {
      for i := 0 to |primes|
        invariant Valid() && completedFiles == old(completedFiles)
        invariant collectedPrimes == MergePrimes(old(collectedPrimes), primes[..i])
      {
        assert primes[..i + 1][..i] == primes[..i];
        var p := primes[i];
        if p !in seen {
          seen := seen + {p};
          collectedPrimes := collectedPrimes + [p];
        }
      }
      assert primes[..|primes|] == primes;
      completedFiles := completedFiles + [file];
    }

    // The merge loop over the results in the order in which they arrive. Returns the
    // snapshots it takes and the output text.
    method MergeLoop(all: seq<string>, arrivals: seq<Arrival>)
      returns (snapshots: seq<Snapshot>, output: string)
      requires Valid()
      modifies this
      ensures Valid() && Now() == MergeAll(old(Now()), arrivals)
      ensures output == OutputText(Now().primes)
      ensures snapshots == SnapshotsTaken(all, old(Now()), arrivals)
    {
      snapshots := [];
      for i := 0 to |arrivals|
        invariant Valid() && Now() == MergeAll(old(Now()), arrivals[..i])
        invariant snapshots == SnapshotsTaken(all, old(Now()), arrivals[..i])
      {
        assert arrivals[..i + 1][..i] == arrivals[..i];
        var res := arrivals[i];
        if res.result.Failed? { continue; }
        MergeResult(res.file, res.result.primes);
        var pending := FilterPending(all, completedFiles);
        snapshots := snapshots + [Snapshot(completedFiles, pending, collectedPrimes)];
      }
      assert arrivals[..|arrivals|] == arrivals;
      output := FormatOutput(collectedPrimes);
    }
  }

  method FormatOutput(primes: seq<uint64>) returns (text: string)
    ensures text == OutputText(primes)
  {
    var unique := DedupAndSort(primes);
    text := "";
    for i := 0 to |unique|
      invariant text == PrintLines(unique[..i])
    {
      assert unique[..i + 1] == unique[..i] + [unique[i]];
      PrintOneMore(unique[..i], unique[i]);
      text := text + Digits(unique[i] as nat) + "\n";
    }
    assert unique[..|unique|] == unique;
  }

  lemma {:induction false} PrintOneMore(s: seq<uint64>, n: uint64)
    ensures PrintLines(s + [n]) == PrintLines(s) + Digits(n as nat) + "\n"
  {
    if s == [] {
      assert s + [n] == [n] && [n][1..] == [];
    } else {
      hide Digits;
      PrintOneMore(s[1..], n);
      assert (s + [n])[0] == s[0] && (s + [n])[1..] == s[1..] + [n];
      var first, middle, last := Digits(s[0] as nat) + "\n", PrintLines(s[1..]), Digits(n as nat) + "\n";
      ConcatAssociative(middle, Digits(n as nat), "\n");
      ConcatAssociative(first, middle, last);
      ConcatAssociative(PrintLines(s), Digits(n as nat), "\n");
    }
  }

  // ---------- Arrival order does not matter ----------

  // Arrivals of known files, each a failure or the file's kept numbers.
  ghost predicate Reported(inputs: map<string, string>, arrivals: seq<Arrival>)
  {
    forall i :: 0 <= i < |arrivals| ==>
      && arrivals[i].file in inputs
      && (arrivals[i].result.Failed? || arrivals[i].result.primes == Kept(NumbersOf(inputs[arrivals[i].file])))
  }

  // And of distinct new ones.
  ghost predicate Legitimate(t: Tally, inputs: map<string, string>, arrivals: seq<Arrival>)
  {
    && (forall i, j :: 0 <= i < j < |arrivals| ==> arrivals[i].file != arrivals[j].file)
    && (forall i :: 0 <= i < |arrivals| ==> arrivals[i].file !in t.completed)
    && Reported(inputs, arrivals)
  }

  ghost function Succeeded(arrivals: seq<Arrival>): set<string>
  {
    set i | 0 <= i < |arrivals| && arrivals[i].result.Received? :: arrivals[i].file
  }

  lemma {:induction false} MergeLoopInvariant(t: Tally, inputs: map<string, string>, arrivals: seq<Arrival>)
    requires Accurate(t, inputs) && Legitimate(t, inputs, arrivals)
    ensures Accurate(MergeAll(t, arrivals), inputs)
    ensures Elements(MergeAll(t, arrivals).completed) == Elements(t.completed) + Succeeded(arrivals)
  {
    hide Kept, NumbersOf, Accurate, Merge;
    if arrivals == [] {
    } else {
      var front, last := arrivals[..|arrivals| - 1], arrivals[|arrivals| - 1];
      assert Legitimate(t, inputs, front);
      MergeLoopInvariant(t, inputs, front);
      SucceededOneMore(front, last);
      assert arrivals == front + [last];
      var before := MergeAll(t, front);
      if last.result.Received? {
        assert last.file !in Succeeded(front);
        assert last.file !in before.completed by {
          assert last.file !in Elements(before.completed);
        }
        MergeKeepsAccurate(before, inputs, last.file);
        MergeCompletes(before, last.file, last.result.primes);
      }
    }
  }

  // Every snapshot taken on the way is an accurate tally, and its pending files are exactly
  // the discovered files it does not list as completed.
  lemma {:induction false} SnapshotsAreAccurate(
    all: seq<string>, t: Tally, inputs: map<string, string>, arrivals: seq<Arrival>, i: nat)
    requires Accurate(t, inputs) && Legitimate(t, inputs, arrivals) && i < |SnapshotsTaken(all, t, arrivals)|
    ensures var s := SnapshotsTaken(all, t, arrivals)[i];
      && Accurate(Tally(s.completed, s.primes), inputs)
      && Elements(s.pending) == Elements(all) - Elements(s.completed)
  {
    hide Kept, NumbersOf, Accurate, Pending, MergeAll;
    var front := arrivals[..|arrivals| - 1];
    if i < |SnapshotsTaken(all, t, front)| {
      SnapshotsAreAccurate(all, t, inputs, front, i);
    } else {
      MergeLoopInvariant(t, inputs, arrivals);
      PendingIsTheRest(all, MergeAll(t, arrivals).completed);
    }
  }

  // There is one after each result without an error, with the tally up to it.
  lemma {:induction false} SnapshotAfterEachSuccess(all: seq<string>, t: Tally, arrivals: seq<Arrival>, k: nat)
    requires k < |arrivals| && arrivals[k].result.Received?
    ensures var s := Snapshot(MergeAll(t, arrivals[..k + 1]).completed,
                              Pending(all, MergeAll(t, arrivals[..k + 1]).completed),
                              MergeAll(t, arrivals[..k + 1]).primes);
      s in SnapshotsTaken(all, t, arrivals)
  {
    hide MergeAll, Pending;
    if k == |arrivals| - 1 {
      assert arrivals[..k + 1] == arrivals;
    } else {
      var front := arrivals[..|arrivals| - 1];
      SnapshotAfterEachSuccess(all, t, front, k);
      assert front[..k + 1] == arrivals[..k + 1];
    }
  }

  // And no other.
  lemma {:induction false} OneSnapshotPerSuccess(all: seq<string>, t: Tally, arrivals: seq<Arrival>)
    ensures |SnapshotsTaken(all, t, arrivals)| == |set i | 0 <= i < |arrivals| && arrivals[i].result.Received?|
  {
    hide MergeAll, SnapshotOf;
    var successes := set i | 0 <= i < |arrivals| && arrivals[i].result.Received?;
    if arrivals == [] {
      assert successes == {};
    } else {
      var n := |arrivals| - 1;
      var front := arrivals[..n];
      OneSnapshotPerSuccess(all, t, front);
      var before := set i | 0 <= i < |front| && front[i].result.Received?;
      assert successes == before + if arrivals[n].result.Received? then {n} else {};
    }
  }

  lemma MergeCompletes(t: Tally, file: string, primes: seq<uint64>)
    ensures Elements(Merge(t, file, primes).completed) == Elements(t.completed) + {file}
  {
  }

  lemma SucceededOneMore(front: seq<Arrival>, last: Arrival)
    ensures Succeeded(front + [last]) == Succeeded(front) + if last.result.Received? then {last.file} else {}
  {
    var all := front + [last];
    forall f | f in Succeeded(front)
      ensures f in Succeeded(all)
    {
      var i :| 0 <= i < |front| && front[i].result.Received? && front[i].file == f;
      assert all[i] == front[i];
    }
    if last.result.Received? { assert all[|front|] == last; }
  }

  // Also if files are reported more than once.
  lemma {:induction false} RepeatedMergeInvariant(t: Tally, inputs: map<string, string>, arrivals: seq<Arrival>)
    requires Tallied(t, inputs) && Reported(inputs, arrivals)
    ensures Tallied(MergeAll(t, arrivals), inputs)
    ensures Elements(MergeAll(t, arrivals).completed) == Elements(t.completed) + Succeeded(arrivals)
  {
    hide Kept, NumbersOf, Tallied, Merge;
    if arrivals == [] {
    } else {
      var front, last := arrivals[..|arrivals| - 1], arrivals[|arrivals| - 1];
      assert Reported(inputs, front);
      RepeatedMergeInvariant(t, inputs, front);
      SucceededOneMore(front, last);
      assert arrivals == front + [last];
      if last.result.Received? {
        MergeKeepsTallied(MergeAll(t, front), inputs, last.file);
        MergeCompletes(MergeAll(t, front), last.file, last.result.primes);
      }
    }
  }

  // Any two orders of arrival in which the same files succeed give the same output text.
  lemma ArrivalOrderIsInvisible(t: Tally, inputs: map<string, string>, one: seq<Arrival>, other: seq<Arrival>)
    requires Tallied(t, inputs) && Reported(inputs, one) && Reported(inputs, other)
    requires Succeeded(one) == Succeeded(other)
    ensures OutputText(MergeAll(t, one).primes) == OutputText(MergeAll(t, other).primes)
    ensures Elements(MergeAll(t, one).completed) == Elements(MergeAll(t, other).completed)
  {
    hide Kept, NumbersOf, MergeAll, Reported;
    RepeatedMergeInvariant(t, inputs, one);
    RepeatedMergeInvariant(t, inputs, other);
  }

  // ---------- From workers to output ----------

  function FilesOf(arrivals: seq<Arrival>): (r: seq<string>)
    ensures |r| == |arrivals| && forall i :: 0 <= i < |r| ==> r[i] == arrivals[i].file
  {
    seq(|arrivals|, i requires 0 <= i < |arrivals| => arrivals[i].file)
  }

  // A result that some worker's turn at a file with this text can have, by whichever tries.
  ghost predicate PossibleResult(text: string, ids: seq<string>, result: WorkerResult)
  {
    exists own, attempt :: ResultOfTries(text, ids, own, attempt, result)
  }

  ghost predicate ResultOfTries(text: string, ids: seq<string>, own: nat, attempt: seq<WorkerResult>,
                                result: WorkerResult)
  {
    && own < |ids| == |attempt| && result == FileResult(ids, own, attempt)
    && forall i :: 0 <= i < |attempt| ==> PossibleTry(text, attempt[i])
  }

  // The results a run can receive: each worker reports every file of its load, in any
  // interleaving, and every try may succeed, fail or break off.
  ghost predicate ResultsOf(inputs: map<string, string>, pending: seq<string>, addrs: seq<string>,
                            ids: seq<string>, arrivals: seq<Arrival>)
  {
    && addrs != [] && |ids| == |addrs|
    && (forall f :: multiset(FilesOf(arrivals))[f] == TimesProcessed(pending, addrs, |addrs|, |pending|, f))
    && forall i :: 0 <= i < |arrivals| && arrivals[i].file in inputs ==>
         PossibleResult(inputs[arrivals[i].file], ids, arrivals[i].result)
  }

  lemma ResultIsAllOrNothing(text: string, ids: seq<string>, result: WorkerResult)
    requires PossibleResult(text, ids, result)
    ensures PossibleTry(text, result)
    ensures result.Failed? || result.primes == Kept(NumbersOf(text))
  {
    hide PossibleTry, FileResult, Kept, NumbersOf;
    var own, attempt :| ResultOfTries(text, ids, own, attempt, result);
    SucceedsIffSomeWorkerDoes(ids, own, attempt);
    if result.Received? {
      TryIsAllOrNothing(text, result);
    } else {
      FailurePossible(text);
    }
  }

  lemma FailurePossible(text: string)
    ensures PossibleTry(text, Failed)
  {
  }

  lemma OnceEach(s: seq<string>, t: seq<string>)
    requires NoDuplicates(t) && multiset(s) == multiset(t)
    ensures NoDuplicates(s) && Elements(s) == Elements(t)
  {
    forall x
      ensures x in s <==> x in t
    {
      assert x in s <==> x in multiset(s);
      assert x in t <==> x in multiset(t);
    }
    forall i, j | 0 <= i < j < |s|
      ensures s[i] != s[j]
    {
      if s[i] == s[j] {
        assert s == s[..i] + [s[i]] + s[i + 1..j] + [s[j]] + s[j + 1..];
        assert multiset(s)[s[i]] >= 2;
        DistinctOccurOnce(t, s[i]);
      }
    }
  }

  // Whoever gets which file, and however often it is tried, the results are those of the pending
  // files, each a failure or exactly the file's kept numbers; with distinct addresses there is
  // one for each.
  lemma ArrivalsAreLegitimate(t: Tally, inputs: map<string, string>, all: seq<string>,
                              addrs: seq<string>, ids: seq<string>, arrivals: seq<Arrival>)
    requires Elements(all) <= inputs.Keys
    requires ResultsOf(inputs, Pending(all, t.completed), addrs, ids, arrivals)
    ensures Reported(inputs, arrivals)
    ensures Elements(FilesOf(arrivals)) == Elements(all) - Elements(t.completed)
    ensures NoDuplicates(all) && NoDuplicates(addrs) ==> Legitimate(t, inputs, arrivals)
  {
    hide Kept, NumbersOf, PossibleResult, Pending, TimesProcessed;
    var pending, files := Pending(all, t.completed), FilesOf(arrivals);
    PendingIsTheRest(all, t.completed);
    ProcessedFiles(pending, addrs, files);
    assert forall i :: 0 <= i < |arrivals| ==> files[i] in Elements(files);
    forall i | 0 <= i < |arrivals|
      ensures arrivals[i].file in inputs && arrivals[i].file !in t.completed
      ensures arrivals[i].result.Failed? || arrivals[i].result.primes == Kept(NumbersOf(inputs[arrivals[i].file]))
    {
      assert files[i] in Elements(files);
      ResultIsAllOrNothing(inputs[arrivals[i].file], ids, arrivals[i].result);
    }
  }

  lemma ProcessedFiles(pending: seq<string>, addrs: seq<string>, files: seq<string>)
    requires addrs != []
    requires forall f :: multiset(files)[f] == TimesProcessed(pending, addrs, |addrs|, |pending|, f)
    ensures Elements(files) == Elements(pending)
    ensures NoDuplicates(pending) && NoDuplicates(addrs) ==> NoDuplicates(files)
  {
    hide TimesProcessed;
    assert pending[..|pending|] == pending;
    forall f
      ensures f in files <==> f in pending
      ensures NoDuplicates(addrs) ==> multiset(files)[f] == multiset(pending)[f]
    {
      AssignmentIsAPartition(pending, addrs, |pending|, f);
      assert f in files <==> f in multiset(files);
    }
    if NoDuplicates(pending) && NoDuplicates(addrs) {
      assert multiset(files) == multiset(pending);
      OnceEach(files, pending);
    }
  }

  // Any two groups of workers, assignments, reassignments and arrival orders in which the same
  // files succeed give the same output text.
  lemma WorkersAreInvisible(t: Tally, inputs: map<string, string>, all: seq<string>,
                            addrs1: seq<string>, ids1: seq<string>, one: seq<Arrival>,
                            addrs2: seq<string>, ids2: seq<string>, other: seq<Arrival>)
    requires Tallied(t, inputs) && Elements(all) <= inputs.Keys
    requires ResultsOf(inputs, Pending(all, t.completed), addrs1, ids1, one)
    requires ResultsOf(inputs, Pending(all, t.completed), addrs2, ids2, other)
    requires Succeeded(one) == Succeeded(other)
    ensures OutputText(MergeAll(t, one).primes) == OutputText(MergeAll(t, other).primes)
  {
    hide ResultsOf, Tallied, Reported, Legitimate, OutputText, MergeAll, Succeeded;
    ArrivalsAreLegitimate(t, inputs, all, addrs1, ids1, one);
    ArrivalsAreLegitimate(t, inputs, all, addrs2, ids2, other);
    ArrivalOrderIsInvisible(t, inputs, one, other);
  }

  // If moreover every file succeeds at least once, that text is the sorted primes of all files,
  // completed before or now.
  lemma EveryAssignmentCompletes(t: Tally, inputs: map<string, string>, all: seq<string>,
                                 addrs: seq<string>, ids: seq<string>, arrivals: seq<Arrival>)
    requires Tallied(t, inputs) && Elements(all) <= inputs.Keys
    requires ResultsOf(inputs, Pending(all, t.completed), addrs, ids, arrivals)
    requires Succeeded(arrivals) == Elements(FilesOf(arrivals))
    ensures OutputText(MergeAll(t, arrivals).primes)
         == PrintLines(Ascending(PrimesIn(inputs, Elements(t.completed) + Elements(all))))
  {
    hide ResultsOf, Reported, Legitimate, MergeAll, Ascending, PrintLines, PrimesIn, Succeeded;
    ArrivalsAreLegitimate(t, inputs, all, addrs, ids, arrivals);
    RepeatedMergeInvariant(t, inputs, arrivals);
    assert Elements(MergeAll(t, arrivals).completed) == Elements(t.completed) + Elements(all);
  }
}
