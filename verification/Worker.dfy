/**
 A worker's ProcessFile: scan a number file, keep the first occurrence of each accepted
 number, stream the results in batches, and fold them into the worker's own state. The
 coordinator's tryWorker reads the stream back.
 */
module Worker {
  import opened Words
  import opened Sequences
  import opened MillerRabin
  import opened Decimal

  const PRIME_BATCH_SIZE := 10000

  // One message of the response stream; error is the empty string when there is none.
  datatype Response = Response(primes: seq<uint64>, count: nat, error: string)

  function BatchMessage(primes: seq<uint64>): Response
  {
    Response(primes, 0, "")
  }

  // ---------- What a number file holds ----------

  // The accepted numbers of a sequence, each at its first occurrence.
  ghost function Kept(numbers: seq<uint64>): seq<uint64>
  {
    if numbers == [] then []
    else
      var n := numbers[|numbers| - 1];
      var rest := Kept(numbers[..|numbers| - 1]);
      if Accepts(n as int) && n !in rest then rest + [n] else rest
  }

  ghost function AcceptedNumbers(numbers: seq<uint64>): set<uint64>
  {
    set n | n in numbers && Accepts(n as int)
  }

  // Kept[i] is the number at Positions[i], and it occurs nowhere before that position.
  ghost function Positions(numbers: seq<uint64>): seq<nat>
  {
    if numbers == [] then []
    else
      var n := numbers[|numbers| - 1];
      var front := numbers[..|numbers| - 1];
      if Accepts(n as int) && n !in Kept(front) then Positions(front) + [|front|] else Positions(front)
  }

  lemma {:induction false} KeptHoldsTheAcceptedNumbersOnce(numbers: seq<uint64>)
    ensures Elements(Kept(numbers)) == AcceptedNumbers(numbers)
    ensures NoDuplicates(Kept(numbers))
  {
    if numbers == [] {
    } else {
      var front, n := numbers[..|numbers| - 1], numbers[|numbers| - 1];
      KeptHoldsTheAcceptedNumbersOnce(front);
      assert numbers == front + [n];
      assert AcceptedNumbers(numbers) == AcceptedNumbers(front) + if Accepts(n as int) then {n} else {};
      assert n in Kept(front) <==> n in Elements(Kept(front));
    }
  }

  // x occurs at position p and nowhere before it.
  predicate FirstAt(numbers: seq<uint64>, p: nat, x: uint64)
  {
    p < |numbers| && numbers[p] == x && x !in numbers[..p]
  }

  // The order of the kept numbers is the order of first occurrence.
  lemma {:induction false} KeptInFirstOccurrenceOrder(numbers: seq<uint64>)
    ensures |Positions(numbers)| == |Kept(numbers)|
    ensures forall i, j :: 0 <= i < j < |Positions(numbers)| ==> Positions(numbers)[i] < Positions(numbers)[j]
    ensures forall i :: 0 <= i < |Positions(numbers)| ==> FirstAt(numbers, Positions(numbers)[i], Kept(numbers)[i])
  {
    hide Accepts;
    if numbers == [] {
    } else {
      var front, n := numbers[..|numbers| - 1], numbers[|numbers| - 1];
      assert numbers == front + [n];
      KeptInFirstOccurrenceOrder(front);
      var ps, kept := Positions(front), Kept(front);
      forall i | 0 <= i < |ps|
        ensures FirstAt(numbers, ps[i], kept[i]) && ps[i] < |front|
      {
      }
      if Accepts(n as int) && n !in kept {
        KeptHoldsTheAcceptedNumbersOnce(front);
        assert n !in AcceptedNumbers(front);
        assert numbers[..|front|] == front;
        assert FirstAt(numbers, |front|, n);
      }
    }
  }

  lemma KeptAppend(numbers: seq<uint64>, n: uint64)
    ensures Kept(numbers + [n]) ==
      if Accepts(n as int) && n !in Kept(numbers) then Kept(numbers) + [n] else Kept(numbers)
  {
    assert (numbers + [n])[..|numbers|] == numbers;
  }

  // ---------- The stream a file produces ----------

  const SCAN_ERROR := "scan error"
  const OPEN_ERROR := "Open failed"

  function FullBatches(primes: seq<uint64>): (n: nat)
  {
    |primes| / PRIME_BATCH_SIZE * PRIME_BATCH_SIZE
  }

  function BatchMessages(pieces: seq<seq<uint64>>): (r: seq<Response>)
    ensures |r| == |pieces| && forall i :: 0 <= i < |r| ==> r[i] == BatchMessage(pieces[i])
  {
    seq(|pieces|, i requires 0 <= i < |pieces| => BatchMessage(pieces[i]))
  }

  ghost function NumbersOf(text: string): seq<uint64>
  {
    NumbersIn(ScanLines(text).lines)
  }

  // Everything the worker sends for a file when no send fails. After a scan error only the
  // batches that had filled up went out, followed by the error.
  ghost function Messages(text: string): seq<Response>
  {
    var kept := Kept(NumbersOf(text));
    if ScanLines(text).complete then
      BatchMessages(Pieces(kept, PRIME_BATCH_SIZE)) + [Response([], |NumbersOf(text)|, "")]
    else
      BatchMessages(Pieces(kept[..FullBatches(kept)], PRIME_BATCH_SIZE)) + [Response([], 0, SCAN_ERROR)]
  }

  lemma {:induction false} WholeBatches(n: nat)
    requires Whole(n, PRIME_BATCH_SIZE)
    ensures n % PRIME_BATCH_SIZE == 0
  {
    if n > 0 {
      WholeBatches(n - PRIME_BATCH_SIZE);
    }
  }

  lemma CompleteBatch(done: seq<uint64>, batch: seq<uint64>)
    requires Whole(|done|, PRIME_BATCH_SIZE) && |batch| == PRIME_BATCH_SIZE
    ensures Whole(|done + batch|, PRIME_BATCH_SIZE)
    ensures BatchMessages(Pieces(done + batch, PRIME_BATCH_SIZE))
         == BatchMessages(Pieces(done, PRIME_BATCH_SIZE)) + [BatchMessage(batch)]
  {
    WholeAddPiece(|done|, PRIME_BATCH_SIZE);
    PiecesSplit(done, batch, PRIME_BATCH_SIZE);
    assert Pieces(batch, PRIME_BATCH_SIZE) == [batch];
  }

  lemma LastBatch(done: seq<uint64>, batch: seq<uint64>)
    requires Whole(|done|, PRIME_BATCH_SIZE) && |batch| < PRIME_BATCH_SIZE
    ensures (done + batch)[..FullBatches(done + batch)] == done
    ensures BatchMessages(Pieces(done + batch, PRIME_BATCH_SIZE))
         == BatchMessages(Pieces(done, PRIME_BATCH_SIZE)) + if |batch| > 0 then [BatchMessage(batch)] else []
  {
    WholeBatches(|done|);
    PiecesSplit(done, batch, PRIME_BATCH_SIZE);
    if |batch| > 0 {
      assert Pieces(batch, PRIME_BATCH_SIZE) == [batch];
    }
  }

  // The messages of an unfinished batch list, and how the list ends.
  lemma FinalMessages(text: string, done: seq<uint64>, batch: seq<uint64>)
    requires Kept(NumbersOf(text)) == done + batch
    requires Whole(|done|, PRIME_BATCH_SIZE) && |batch| < PRIME_BATCH_SIZE
    ensures Messages(text) == BatchMessages(Pieces(done, PRIME_BATCH_SIZE)) + LastMessages(text, batch)
  {
    hide Kept, NumbersOf, Pieces, Whole, BatchMessages, ScanLines, FullBatches;
    LastBatch(done, batch);
  }

  ghost function LastMessages(text: string, batch: seq<uint64>): seq<Response>
  {
    if !ScanLines(text).complete then [Response([], 0, SCAN_ERROR)]
    else (if |batch| > 0 then [BatchMessage(batch)] else []) + [Response([], |NumbersOf(text)|, "")]
  }

  lemma {:induction false} KeptGrows(a: seq<uint64>, b: seq<uint64>)
    ensures Kept(a) <= Kept(a + b)
  {
    if b == [] {
      assert a + b == a;
    } else {
      var front, n := b[..|b| - 1], b[|b| - 1];
      KeptGrows(a, front);
      assert a + b == (a + front) + [n];
      KeptAppend(a + front, n);
    }
  }

  lemma {:induction false} NumbersGrow(lines: seq<string>, l: nat) returns (rest: seq<uint64>)
    requires l <= |lines|
    ensures NumbersIn(lines) == NumbersIn(lines[..l]) + rest
    decreases |lines| - l
  {
    if l == |lines| {
      assert lines[..l] == lines;
      rest := [];
    } else {
      assert lines[..l + 1] == lines[..l] + [lines[l]];
      AppendLine(lines[..l], lines[l]);
      rest := NumbersGrow(lines, l + 1);
      ConcatAssociative(NumbersIn(lines[..l]), LineNumbers(lines[l]), rest);
      rest := LineNumbers(lines[l]) + rest;
    }
  }

  // A full batch found part way is one of the file's messages.
  lemma FullBatchIsAMessage(text: string, l: nat, done: seq<uint64>, batch: seq<uint64>)
    requires l <= |ScanLines(text).lines| && Kept(NumbersIn(ScanLines(text).lines[..l])) == done + batch
    requires Whole(|done|, PRIME_BATCH_SIZE) && |batch| == PRIME_BATCH_SIZE
    ensures |Pieces(done, PRIME_BATCH_SIZE)| < |Messages(text)|
    ensures Messages(text)[..|Pieces(done, PRIME_BATCH_SIZE)|] == BatchMessages(Pieces(done, PRIME_BATCH_SIZE))
  {
    hide ScanLines, NumbersIn, Whole, Pieces;
    var lines := ScanLines(text).lines;
    var rest := NumbersGrow(lines, l);
    KeptGrows(NumbersIn(lines[..l]), rest);
    hide Kept;
    WholeBatches(|done|);
    var kept := Kept(NumbersOf(text));
    var all := if ScanLines(text).complete then kept else kept[..FullBatches(kept)];
    SplitAfter(done, all);
  }

  lemma SplitAfter(done: seq<uint64>, all: seq<uint64>)
    requires Whole(|done|, PRIME_BATCH_SIZE) && done <= all
    ensures BatchMessages(Pieces(done, PRIME_BATCH_SIZE)) <= BatchMessages(Pieces(all, PRIME_BATCH_SIZE))
  {
    var tail := all[|done|..];
    assert all == done + tail;
    PiecesSplit(done, tail, PRIME_BATCH_SIZE);
  }

  // Between two lines: the kept numbers so far are the batches sent plus an unfinished one.
  ghost predicate Progress(numbers: seq<uint64>, sent: seq<Response>, done: seq<uint64>,
                           batch: seq<uint64>, found: set<uint64>)
  {
    && found == Elements(Kept(numbers))
    && Kept(numbers) == done + batch && |batch| < PRIME_BATCH_SIZE
    && Whole(|done|, PRIME_BATCH_SIZE)
    && sent == BatchMessages(Pieces(done, PRIME_BATCH_SIZE))
  }

  lemma RejectNumber(numbers: seq<uint64>, n: uint64, sent: seq<Response>, done: seq<uint64>,
                     batch: seq<uint64>, found: set<uint64>)
    requires Progress(numbers, sent, done, batch, found) && (!Accepts(n as int) || n in found)
    ensures Progress(numbers + [n], sent, done, batch, found)
  {
    hide Pieces, Whole, Accepts, Kept;
    KeptAppend(numbers, n);
  }

  lemma KeepNumber(numbers: seq<uint64>, n: uint64, sent: seq<Response>, done: seq<uint64>,
                   batch: seq<uint64>, found: set<uint64>)
    requires Progress(numbers, sent, done, batch, found) && Accepts(n as int) && n !in found
    ensures found + {n} == Elements(Kept(numbers + [n])) && Kept(numbers + [n]) == done + (batch + [n])
    ensures |batch| + 1 < PRIME_BATCH_SIZE ==> Progress(numbers + [n], sent, done, batch + [n], found + {n})
    ensures |batch| + 1 == PRIME_BATCH_SIZE ==>
      Progress(numbers + [n], sent + [BatchMessage(batch + [n])], done + (batch + [n]), [], found + {n})
  {
    hide Pieces, Whole, Accepts, Kept;
    KeptAppend(numbers, n);
    ConcatAssociative(done, batch, [n]);
    if |batch| + 1 == PRIME_BATCH_SIZE {
      CompleteBatch(done, batch + [n]);
      assert done + (batch + [n]) + [] == done + (batch + [n]);
    }
  }

  lemma BrokenSend(text: string, l: nat, numbers: seq<uint64>, n: uint64, sent: seq<Response>,
                   done: seq<uint64>, batch: seq<uint64>, found: set<uint64>)
    requires Progress(numbers, sent, done, batch, found) && Accepts(n as int) && n !in found
    requires |batch| + 1 == PRIME_BATCH_SIZE
    requires l <= |ScanLines(text).lines| && NumbersIn(ScanLines(text).lines[..l]) == numbers + [n]
    ensures |sent| < |Messages(text)| && sent == Delivered(Messages(text), |sent|)
  {
    hide Pieces, Whole, Accepts, Kept, Messages, ScanLines, NumbersIn;
    KeepNumber(numbers, n, sent, done, batch, found);
    FullBatchIsAMessage(text, l, done, batch + [n]);
  }

  lemma FinishStream(text: string, sent: seq<Response>, done: seq<uint64>, batch: seq<uint64>, found: set<uint64>)
    requires Progress(NumbersOf(text), sent, done, batch, found)
    ensures Messages(text) == sent + LastMessages(text, batch)
  {
    hide Pieces, Whole, Kept, Messages, NumbersOf, BatchMessages, LastMessages;
    FinalMessages(text, done, batch);
  }

  // The scan loop of one file: filter, drop repeats, batch and send.
  method ScanFile(text: string, delivered: nat)
    returns (sent: seq<Response>, broken: bool, complete: bool, found: set<uint64>)
    ensures complete == ScanLines(text).complete
    ensures sent == Delivered(Messages(text), delivered) && broken == (delivered < |Messages(text)|)
    ensures !broken ==> found == Elements(Kept(NumbersOf(text)))
  {
    hide Progress, Accepts, Messages, ScanLines, NumbersIn, LineNumbers, TrimSpace, ParseUint, Kept;
    var scan := ScanLines(text);
    complete := scan.complete;
    var batch: seq<uint64> := [];
    var count: nat := 0;
    sent, broken, found := [], false, {};
    ghost var numbers: seq<uint64> := [];
    ghost var done: seq<uint64> := [];
    EmptyProgress(scan.lines);

    for l := 0 to |scan.lines|
      invariant numbers == NumbersIn(scan.lines[..l]) && count == |numbers|
      invariant Progress(numbers, sent, done, batch, found)
      invariant |batch| < PRIME_BATCH_SIZE && |sent| <= delivered
    {
      assert scan.lines[..l + 1] == scan.lines[..l] + [scan.lines[l]];
      AppendLine(scan.lines[..l], scan.lines[l]);
      NumberOnLine(scan.lines[l]);
      var line := TrimSpace(scan.lines[l]);
      if line == "" { continue; }
      var parsed := ParseUint(line);
      if parsed.None? { continue; }
      var num := parsed.value;
      count := count + 1;
      var isPrime := IsPrime(num);
      if isPrime && num !in found {
        KeepNumber(numbers, num, sent, done, batch, found);
        if |batch| + 1 >= PRIME_BATCH_SIZE && |sent| == delivered {
          BrokenSend(text, l + 1, numbers, num, sent, done, batch, found);
          return sent, true, complete, found;
        }
        found := found + {num};
        batch := batch + [num];
        if |batch| >= PRIME_BATCH_SIZE {
          sent := sent + [BatchMessage(batch)];
          done, batch := done + batch, [];
        }
      } else {
        RejectNumber(numbers, num, sent, done, batch, found);
      }
      numbers := numbers + [num];
    }

    assert scan.lines[..|scan.lines|] == scan.lines;
    FinishStream(text, sent, done, batch, found);
    ProgressFound(numbers, sent, done, batch, found);
    var final: seq<Response> :=
      if !scan.complete then [Response([], 0, SCAN_ERROR)]
      else (if |batch| > 0 then [BatchMessage(batch)] else []) + [Response([], count, "")];
    assert final == LastMessages(text, batch);
    if |sent| + |final| > delivered {
      return sent + final[..delivered - |sent|], true, complete, found;
    }
    sent := sent + final;
  }

  lemma EmptyProgress(lines: seq<string>)
    ensures NumbersIn(lines[..0]) == [] && Progress([], [], [], [], {})
  {
  }

  lemma ProgressFound(numbers: seq<uint64>, sent: seq<Response>, done: seq<uint64>,
                      batch: seq<uint64>, found: set<uint64>)
    requires Progress(numbers, sent, done, batch, found)
    ensures found == Elements(Kept(numbers))
  {
  }

  // What reaches the coordinator when only the first n sends succeed.
  function Delivered(messages: seq<Response>, n: nat): seq<Response>
  {
    if n < |messages| then messages[..n] else messages
  }

  lemma NumberOnLine(line: string)
    ensures LineNumbers(line) ==
      if TrimSpace(line) == "" || ParseUint(TrimSpace(line)).None? then []
      else [ParseUint(TrimSpace(line)).value]
  {
  }

  // ---------- The worker ----------

  class WorkerServer {
    var completedFiles: seq<string>
    var primesFound: seq<uint64>
    var seenPrimes: set<uint64>

    ghost predicate Valid()
      reads this
    {
      seenPrimes == Elements(primesFound) && NoDuplicates(primesFound)
    }

    constructor ()
      ensures Valid() && completedFiles == [] && primesFound == []
    {
      completedFiles, primesFound, seenPrimes := [], [], {};
    }

    // access is the text of the file, or None when connecting or opening fails. Only the
    // first `delivered` sends succeed. Returns what was sent and whether the stream broke.
    method ProcessFile(path: string, access: Option<string>, delivered: nat)
      returns (sent: seq<Response>, broken: bool)
      requires Valid()
      modifies this
      ensures Valid()
      ensures access.None? ==> sent == Delivered([Response([], 0, OPEN_ERROR)], delivered)
      ensures access.None? ==> broken == (delivered == 0)
      ensures access.Some? ==> sent == Delivered(Messages(access.value), delivered)
      ensures access.Some? ==> broken == (delivered < |Messages(access.value)|)
      ensures if access.Some? && !broken && ScanLines(access.value).complete
        then completedFiles == old(completedFiles) + [path]
          && Elements(primesFound) == old(Elements(primesFound)) + AcceptedNumbers(NumbersOf(access.value))
        else completedFiles == old(completedFiles) && primesFound == old(primesFound)
    {
      if access.None? {
        if delivered == 0 { return [], true; }
        return [Response([], 0, OPEN_ERROR)], false;
      }
      var found, complete;
      sent, broken, complete, found := ScanFile(access.value, delivered);
      if broken || !complete { return; }
      KeptHoldsTheAcceptedNumbersOnce(NumbersOf(access.value));
      MergeFound(found);
      completedFiles := completedFiles + [path];
    }

    method MergeFound(found: set<uint64>)
      requires Valid()
      modifies `primesFound, `seenPrimes
      ensures Valid() && Elements(primesFound) == old(Elements(primesFound)) + found
    {
      var rest := found;
      while rest != {}
        invariant Valid() && rest <= found
        invariant Elements(primesFound) + rest == old(Elements(primesFound)) + found
        decreases rest
      {
        var p :| p in rest;
        rest := rest - {p};
        if p !in seenPrimes {
          seenPrimes := seenPrimes + {p};
          primesFound := primesFound + [p];
        }
      }
    }
  }

  // ---------- Reading the stream back ----------

  datatype WorkerResult = Received(primes: seq<uint64>, count: nat) | Failed

  // What a finished or broken stream amounts to: any error discards everything.
  function Receive(messages: seq<Response>, broken: bool): WorkerResult
  {
    if messages == [] then (if broken then Failed else Received([], 0))
    else if messages[0].error != "" then Failed
    else Prepend(messages[0], Receive(messages[1..], broken))
  }

  function Prepend(first: Response, rest: WorkerResult): WorkerResult
  {
    match rest
    case Failed => Failed
    case Received(primes, count) => Received(first.primes + primes, if count > 0 then count else first.count)
  }

  method TryWorker(messages: seq<Response>, broken: bool) returns (result: WorkerResult)
    ensures result == Receive(messages, broken)
  {
    var allPrimes: seq<uint64> := [];
    var count: nat := 0;
    for i := 0 to |messages|
      invariant Receive(messages, broken) ==
        Prepend(Response(allPrimes, count, ""), Receive(messages[i..], broken))
    {
      var chunk := messages[i];
      assert messages[i..][1..] == messages[i + 1..];
      if chunk.error != "" {
        return Failed;
      }
      PrependTwice(allPrimes, count, chunk, Receive(messages[i + 1..], broken));
      allPrimes := allPrimes + chunk.primes;
      if chunk.count > 0 {
        count := chunk.count;
      }
    }
    assert messages[|messages|..] == [];
    if broken { return Failed; }
    result := Received(allPrimes, count);
  }

  lemma PrependTwice(primes: seq<uint64>, count: nat, chunk: Response, rest: WorkerResult)
    ensures Prepend(Response(primes, count, ""), Prepend(chunk, rest)) ==
      Prepend(Response(primes + chunk.primes, if chunk.count > 0 then chunk.count else count, ""), rest)
  {
    if rest.Received? {
      ConcatAssociative(primes, chunk.primes, rest.primes);
    }
  }

  lemma FirstBatch(first: seq<uint64>, rest: seq<seq<uint64>>, tail: seq<Response>)
    ensures var all := BatchMessages([first] + rest) + tail;
      all[0] == BatchMessage(first) && all[1..] == BatchMessages(rest) + tail
  {
  }

  lemma {:induction false} ReceiveBatches(pieces: seq<seq<uint64>>, tail: seq<Response>, broken: bool)
    ensures Receive(BatchMessages(pieces) + tail, broken) ==
      Prepend(BatchMessage(Flatten(pieces)), Receive(tail, broken))
  {
    if pieces == [] {
      assert BatchMessages(pieces) + tail == tail;
    } else {
      hide BatchMessages, Prepend;
      ReceiveBatches(pieces[1..], tail, broken);
      FirstBatch(pieces[0], pieces[1..], tail);
      assert pieces == [pieces[0]] + pieces[1..];
      PrependTwice(pieces[0], 0, BatchMessage(Flatten(pieces[1..])), Receive(tail, broken));
    }
  }

  lemma {:induction false} BrokenReceivesNothing(messages: seq<Response>)
    ensures Receive(messages, true) == Failed
  {
    if messages == [] {
    } else {
      BrokenReceivesNothing(messages[1..]);
    }
  }

  // The stream delivers a whole file's kept numbers, in order, or nothing at all.
  lemma StreamRefinement(text: string, delivered: nat)
    ensures Receive(Delivered(Messages(text), delivered), delivered < |Messages(text)|) ==
      if ScanLines(text).complete && delivered >= |Messages(text)|
      then Received(Kept(NumbersOf(text)), |NumbersOf(text)|)
      else Failed
  {
    if delivered < |Messages(text)| {
      BrokenReceivesNothing(Delivered(Messages(text), delivered));
    } else {
      hide ScanLines, NumbersOf, Kept, Pieces, BatchMessages;
      var kept := Kept(NumbersOf(text));
      var sent := if ScanLines(text).complete then kept else kept[..FullBatches(kept)];
      var last := if ScanLines(text).complete then Response([], |NumbersOf(text)|, "") else Response([], 0, SCAN_ERROR);
      PiecesRebuild(sent, PRIME_BATCH_SIZE);
      ReceiveBatches(Pieces(sent, PRIME_BATCH_SIZE), [last], false);
    }
  }

  // ---------- Any one try ----------

  // The messages of a worker that opened the file, or could not.
  ghost function StreamOf(access: Option<string>): seq<Response>
  {
    match access
    case None => [Response([], 0, OPEN_ERROR)]
    case Some(text) => Messages(text)
  }

  // What the coordinator gets when only the first `delivered` messages come through.
  ghost function Tried(access: Option<string>, delivered: nat): WorkerResult
  {
    Receive(Delivered(StreamOf(access), delivered), delivered < |StreamOf(access)|)
  }

  // Whatever a try of a file with this text can result in; an unreachable worker fails, too.
  ghost predicate PossibleTry(text: string, result: WorkerResult)
  {
    result == Failed || exists access, delivered :: access in {None, Some(text)} && result == Tried(access, delivered)
  }

  // Every try is all or nothing: the file's kept numbers and its count, or a failure.
  lemma TryIsAllOrNothing(text: string, result: WorkerResult)
    requires PossibleTry(text, result)
    ensures result == Failed
      || (ScanLines(text).complete && result == Received(Kept(NumbersOf(text)), |NumbersOf(text)|))
  {
    hide ScanLines, Kept, NumbersOf, Messages, Receive;
    if result != Failed {
      var access, delivered :| access in {None, Some(text)} && result == Tried(access, delivered);
      if access.None? {
        OpenErrorFails(delivered);
      } else {
        StreamRefinement(text, delivered);
      }
    }
  }

  lemma OpenErrorFails(delivered: nat)
    ensures Tried(None, delivered) == Failed
  {
    var messages := [Response([], 0, OPEN_ERROR)];
    if delivered == 0 { assert Delivered(messages, 0) == []; }
  }

  // A readable file can be received whole.
  lemma WholeTryIsPossible(text: string)
    requires ScanLines(text).complete
    ensures PossibleTry(text, Received(Kept(NumbersOf(text)), |NumbersOf(text)|))
  {
    hide ScanLines, Kept, NumbersOf, Messages, Receive;
    var n := |Messages(text)|;
    StreamRefinement(text, n);
    assert Some(text) in {None, Some(text)};
    assert Tried(Some(text), n) == Received(Kept(NumbersOf(text)), |NumbersOf(text)|);
  }

  // Every batch but the last is full, and none is empty.
  lemma BatchesAreFull(text: string, i: nat)
    requires i < |Messages(text)| - 1
    ensures 0 < |Messages(text)[i].primes| <= PRIME_BATCH_SIZE && Messages(text)[i].error == ""
    ensures i < |Messages(text)| - 2 ==> |Messages(text)[i].primes| == PRIME_BATCH_SIZE
  {
    hide ScanLines, NumbersOf, Kept;
    var kept := Kept(NumbersOf(text));
    PiecesRebuild(if ScanLines(text).complete then kept else kept[..FullBatches(kept)], PRIME_BATCH_SIZE);
  }
}
