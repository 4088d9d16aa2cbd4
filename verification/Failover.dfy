/**
 One path on a replicated store: a primary that stores, creates and deletes, backups that
 take over whole copies, lost or failed replications, crashes at any phase, and promotion
 of any live server once the primary is gone.
 */
module Failover {
  import opened Sequences
  import opened Handler
  import opened Sync

  type Id = string

  // Phases of a mutation on the primary: the data is arriving; the file is renamed into
  // place but its version not yet raised; the backups are being told.
  datatype Phase = Receiving | Renamed | Replicating

  datatype Action = Storing | Creating | Deleting

  // target is what the backups are told to hold; todo are the peers still to be told;
  // before records every copy at the start of the mutation.
  datatype Op = Op(action: Action, content: Bytes, phase: Phase, target: Copy, todo: set<Id>, before: map<Id, Copy>)

  // held: at the time of the acknowledgement every live server had at least this version.
  datatype Ack = Ack(version: nat, content: Bytes, held: bool)

  // acks: the acknowledged stores since the last deletion; settled: the last of them reached
  // every live server whole, and no mutation has begun since.
  datatype Cluster = Cluster(copies: map<Id, Copy>, live: set<Id>, primary: Option<Id>, op: Option<Op>,
                             acks: seq<Ack>, settled: bool)

  // ---------- Steps ----------

  ghost predicate Init(c: Cluster)
  {
    && c.live == c.copies.Keys && c.primary.Some? && c.primary.value in c.live
    && c.op == None && c.acks == [] && !c.settled
  }

  predicate CanBegin(c: Cluster)
  {
    c.primary.Some? && c.primary.value in c.live && c.op == None && c.primary.value in c.copies
  }

  predicate BeginStore(c: Cluster, c': Cluster, content: Bytes)
  {
    && CanBegin(c) && content != []
    && c' == c.(op := Some(Op(Storing, content, Receiving, Missing, {}, c.copies)), settled := false)
  }

  // The client's stream breaks: the temporary file is removed.
  predicate Abort(c: Cluster, c': Cluster)
  {
    c.op.Some? && c.op.value.phase == Receiving && c' == c.(op := None)
  }

  predicate Rename(c: Cluster, c': Cluster)
  {
    && c.op.Some? && c.op.value.phase == Receiving && c.primary.Some? && c.primary.value in c.copies
    && var p := c.primary.value;
       c' == c.(copies := c.copies[p := Copy(c.op.value.content, VersionOf(c.copies[p]))],
                op := Some(c.op.value.(phase := Renamed)))
  }

  predicate RaiseVersion(c: Cluster, c': Cluster)
  {
    && c.op.Some? && c.op.value.phase == Renamed && c.primary.Some? && c.primary.value in c.copies
    && var p := c.primary.value;
       var target := Copy(c.op.value.content, VersionOf(c.copies[p]) + 1);
       c' == c.(copies := c.copies[p := target],
                op := Some(c.op.value.(phase := Replicating, target := target, todo := c.copies.Keys - {p})))
  }

  // Creating fails when the primary has the file; deleting ends the file's incarnation.
  predicate BeginCreate(c: Cluster, c': Cluster)
  {
    && CanBegin(c) && c.copies[c.primary.value] == Missing
    && var p := c.primary.value;
       c' == c.(copies := c.copies[p := Copy([], 1)], settled := false,
                op := Some(Op(Creating, [], Replicating, Copy([], 1), c.copies.Keys - {p}, c.copies)))
  }

  predicate BeginDelete(c: Cluster, c': Cluster)
  {
    && CanBegin(c)
    && var p := c.primary.value;
       c' == c.(copies := c.copies[p := Missing], acks := [], settled := false,
                op := Some(Op(Deleting, [], Replicating, Missing, c.copies.Keys - {p}, c.copies)))
  }

  // One backup is told: it installs the whole target, or the attempt fails.
  predicate ReplicateTo(c: Cluster, c': Cluster, b: Id, installed: bool)
  {
    && c.op.Some? && c.op.value.phase == Replicating && b in c.op.value.todo
    && (installed ==> b in c.live)
    && c' == c.(copies := if installed then c.copies[b := c.op.value.target] else c.copies,
                op := Some(c.op.value.(todo := c.op.value.todo - {b})))
  }

  predicate HeldByAll(c: Cluster, v: nat)
  {
    forall s :: s in c.live && s in c.copies ==> VersionOf(c.copies[s]) >= v
  }

  predicate WholeOnAll(c: Cluster, target: Copy)
  {
    forall s :: s in c.live && s in c.copies ==> c.copies[s] == target
  }

  predicate Finish(c: Cluster, c': Cluster)
  {
    && c.op.Some? && c.op.value.phase == Replicating && c.op.value.todo == {}
    && var op := c.op.value;
       if op.action == Storing && op.target.Copy? then
         c' == c.(op := None, settled := WholeOnAll(c, op.target),
                  acks := c.acks + [Ack(op.target.version, op.target.content, HeldByAll(c, op.target.version))])
       else c' == c.(op := None)
  }

  // A server fails for good; a failing primary takes its mutation with it.
  predicate Crash(c: Cluster, c': Cluster, s: Id)
  {
    && s in c.live
    && c' == if c.primary == Some(s)
             then c.(live := c.live - {s}, primary := None, op := None)
             else c.(live := c.live - {s})
  }

  predicate Promote(c: Cluster, c': Cluster, s: Id)
  {
    c.primary == None && s in c.live && c' == c.(primary := Some(s))
  }

  // A backup's copy is missing or older than the primary's.
  predicate Lags(mine: Copy, theirs: Copy)
  {
    theirs.Copy? && (mine.Missing? || mine.version < theirs.version)
  }

  function PieceCount(content: Bytes): nat
  {
    |Pieces(content, CHUNK_SIZE)|
  }

  // The first j pieces of a copy, under its full version.
  function CutAt(c: Copy, j: nat): Copy
    requires c.Copy? && j <= PieceCount(c.content)
  {
    Copy(Flatten(Pieces(c.content, CHUNK_SIZE)[..j]), c.version)
  }

  // Between mutations a lagging backup syncs from the primary; a stream that breaks off after j
  // pieces leaves these.
  predicate CatchUp(c: Cluster, c': Cluster, b: Id, j: nat)
  {
    && CanBegin(c) && b in c.live && b in c.copies && !IsPrimary(c, b)
    && var source := c.copies[c.primary.value];
       && Lags(c.copies[b], source) && 1 <= j <= PieceCount(source.content)
       && c' == c.(copies := c.copies[b := CutAt(source, j)])
  }

  // What the primary does with its own copy.
  ghost predicate LocalStep(c: Cluster, c': Cluster)
  {
    || (exists content :: BeginStore(c, c', content))
    || Abort(c, c') || Rename(c, c') || RaiseVersion(c, c')
    || BeginCreate(c, c') || BeginDelete(c, c')
  }

  // What happens between servers.
  ghost predicate RemoteStep(c: Cluster, c': Cluster)
  {
    || (exists b, installed :: ReplicateTo(c, c', b, installed))
    || Finish(c, c')
    || (exists b, j :: CatchUp(c, c', b, j))
    || (exists s :: Crash(c, c', s))
    || (exists s :: Promote(c, c', s))
  }

  ghost predicate Step(c: Cluster, c': Cluster)
  {
    LocalStep(c, c') || RemoteStep(c, c')
  }

  ghost predicate Behaviour(b: seq<Cluster>)
  {
    b != [] && Init(b[0]) && forall i :: 0 <= i < |b| - 1 ==> Step(b[i], b[i + 1])
  }

  // ---------- The invariant ----------

  predicate IsPrimary(c: Cluster, s: Id)
  {
    c.primary == Some(s)
  }

  ghost predicate Shape(c: Cluster)
  {
    && c.live <= c.copies.Keys
    && (c.primary.Some? ==> c.primary.value in c.live)
    && (c.op.Some? ==>
          && c.primary.Some? && !c.settled
          && c.op.value.before.Keys == c.copies.Keys
          && c.op.value.todo <= c.copies.Keys - {c.primary.value})
  }

  // The primary's own copy at each phase of a store that found the given copy.
  function StoreProgress(op: Op, found: Copy): Copy
  {
    match op.phase
    case Receiving => found
    case Renamed => Copy(op.content, VersionOf(found))
    case Replicating => Copy(op.content, VersionOf(found) + 1)
  }

  // During a mutation every live backup has what it had before or the whole target, and
  // the primary has the target once it replicates.
  ghost predicate OldOrNew(c: Cluster)
  {
    c.op.Some? ==>
      var op := c.op.value;
      && (forall s :: s in c.live && s in c.copies && s in op.before && !IsPrimary(c, s) ==>
            c.copies[s] == op.before[s] || (op.phase == Replicating && c.copies[s] == op.target))
      && (op.phase == Replicating && c.primary.Some? && c.primary.value in c.copies ==>
            c.copies[c.primary.value] == op.target)
      && (op.action == Storing ==> op.content != [])
      && (op.action == Storing && op.phase == Replicating ==>
            op.target.Copy? && op.target.version > 0 && op.target.content == op.content)
      && (op.action == Storing && c.primary.Some? && c.primary.value in c.copies && c.primary.value in op.before ==>
            c.copies[c.primary.value] == StoreProgress(op, op.before[c.primary.value]))
      && (op.action == Deleting ==> c.acks == [] && op.target == Missing)
      && (op.action == Creating ==> op.target == Copy([], 1))
      && (op.action != Storing ==> op.phase == Replicating)
  }

  // No live server falls below a version that all of them held when it was acknowledged.
  ghost predicate AcksKept(c: Cluster)
  {
    && (forall k :: 0 <= k < |c.acks| && c.acks[k].held ==> HeldByAll(c, c.acks[k].version))
    && (forall k :: 0 <= k < |c.acks| ==> c.acks[k].version > 0)
    && (c.op.Some? && c.op.value.phase == Replicating ==>
          forall k :: 0 <= k < |c.acks| && c.acks[k].held ==> c.acks[k].version < VersionOf(c.op.value.target))
    && (forall i, j :: 0 <= i < j < |c.acks| && c.acks[i].held ==> c.acks[i].version < c.acks[j].version)
  }

  function LastAcked(c: Cluster): Copy
    requires c.acks != []
  {
    Copy(c.acks[|c.acks| - 1].content, c.acks[|c.acks| - 1].version)
  }

  ghost predicate Settled(c: Cluster)
  {
    c.settled ==> c.acks != [] && WholeOnAll(c, LastAcked(c))
  }

  ghost predicate Inv(c: Cluster)
  {
    Shape(c) && OldOrNew(c) && AcksKept(c) && Settled(c)
  }

  lemma LocalKeepsShape(c: Cluster, c': Cluster)
    requires Shape(c) && OldOrNew(c) && LocalStep(c, c')
    ensures Shape(c') && OldOrNew(c')
  {
    hide WholeOnAll, HeldByAll;
  }

  lemma RemoteKeepsShape(c: Cluster, c': Cluster)
    requires Shape(c) && OldOrNew(c) && RemoteStep(c, c')
    ensures Shape(c') && OldOrNew(c')
  {
    hide WholeOnAll, HeldByAll;
  }

  lemma AcksKeptFinish(c: Cluster, c': Cluster)
    requires Shape(c) && OldOrNew(c) && AcksKept(c) && Finish(c, c')
    ensures AcksKept(c')
  {
  }

  lemma AcksKeptCatchUp(c: Cluster, c': Cluster, b: Id, j: nat)
    requires AcksKept(c) && CatchUp(c, c', b, j)
    ensures AcksKept(c')
  {
    hide PieceCount;
  }

  lemma AcksKeptReplicate(c: Cluster, c': Cluster, b: Id, installed: bool)
    requires Shape(c) && AcksKept(c) && ReplicateTo(c, c', b, installed)
    ensures AcksKept(c')
  {
  }

  lemma AcksKeptLocal(c: Cluster, c': Cluster)
    requires Shape(c) && AcksKept(c) && LocalStep(c, c')
    ensures AcksKept(c')
  {
    if !(Rename(c, c') || RaiseVersion(c, c') || BeginCreate(c, c') || BeginDelete(c, c')) {
      hide Rename, RaiseVersion, BeginCreate, BeginDelete, Shape;
    }
  }

  lemma AcksKeptRemote(c: Cluster, c': Cluster)
    requires Shape(c) && OldOrNew(c) && AcksKept(c) && RemoteStep(c, c')
    ensures AcksKept(c')
  {
    if b, installed :| ReplicateTo(c, c', b, installed) {
      AcksKeptReplicate(c, c', b, installed);
    } else if Finish(c, c') {
      AcksKeptFinish(c, c');
    } else if b, j :| CatchUp(c, c', b, j) {
      AcksKeptCatchUp(c, c', b, j);
    } else {
      hide Finish, ReplicateTo, CatchUp, Shape, OldOrNew;
    }
  }

  lemma SettledStep(c: Cluster, c': Cluster)
    requires Shape(c) && OldOrNew(c) && Settled(c) && Step(c, c')
    ensures Settled(c')
  {
  }

  lemma {:induction false} BehaviourInv(b: seq<Cluster>, i: nat)
    requires Behaviour(b) && i < |b|
    ensures Inv(b[i])
  {
    hide Step, Inv;
    if i == 0 {
      InitInv(b[0]);
    } else {
      BehaviourInv(b, i - 1);
      var c, c' := b[i - 1], b[i - 1 + 1];
      StepInv(c, c');
    }
  }

  lemma StepInv(c: Cluster, c': Cluster)
    requires Inv(c) && Step(c, c')
    ensures Inv(c')
  {
    hide LocalStep, RemoteStep, Shape, OldOrNew, AcksKept, Settled;
    SettledStep(c, c');
    if LocalStep(c, c') {
      LocalKeepsShape(c, c');
      AcksKeptLocal(c, c');
    } else {
      RemoteKeepsShape(c, c');
      AcksKeptRemote(c, c');
    }
  }

  lemma InitInv(c: Cluster)
    requires Init(c)
    ensures Inv(c)
  {
  }

  // ---------- Durability ----------

  // A primary that crashes at any phase of a store leaves on every live backup the whole
  // old copy or the whole new one, never a mixture.
  lemma CrashLeavesOldOrNew(b: seq<Cluster>, i: nat, p: Id)
    requires Behaviour(b) && i + 1 < |b| && Crash(b[i], b[i + 1], p) && b[i].primary == Some(p)
    requires b[i].op.Some? && b[i].op.value.action == Storing
    ensures var op := b[i].op.value;
      forall s :: s in b[i + 1].live ==>
        && s in b[i + 1].copies && s in op.before && p in op.before
        && (b[i + 1].copies[s] == op.before[s]
            || b[i + 1].copies[s] == Copy(op.content, VersionOf(op.before[p]) + 1))
  {
    BehaviourInv(b, i);
    hide AcksKept, Settled, Step;
  }

  ghost predicate Begins(c: Cluster, c': Cluster)
  {
    (exists content :: BeginStore(c, c', content)) || BeginCreate(c, c') || BeginDelete(c, c')
  }

  // A store acknowledged after reaching every live server is what each of them holds, through
  // any crashes and promotions, until the next mutation begins: whichever server is
  // promoted serves it.
  lemma {:induction false} AcknowledgedStoreSurvives(b: seq<Cluster>, i: nat, j: nat)
    requires Behaviour(b) && i <= j < |b| && b[i].settled
    requires forall k :: i <= k < j ==> !Begins(b[k], b[k + 1])
    ensures b[j].settled && b[i].acks != [] && b[j].acks == b[i].acks
    ensures forall s :: s in b[j].live ==> s in b[j].copies && b[j].copies[s] == LastAcked(b[i])
    decreases j
  {
    hide Step, Begins, Inv;
    BehaviourInv(b, j);
    if i < j {
      AcknowledgedStoreSurvives(b, i, j - 1);
      BehaviourInv(b, j - 1);
      QuietStep(b[j - 1], b[j - 1 + 1]);
    }
    SettledMeans(b[j]);
  }

  lemma SettledMeans(c: Cluster)
    requires Inv(c) && c.settled
    ensures c.acks != [] && forall s :: s in c.live ==> s in c.copies && c.copies[s] == LastAcked(c)
  {
  }

  lemma QuietStep(c: Cluster, c': Cluster)
    requires Inv(c) && c.settled && Step(c, c') && !Begins(c, c')
    ensures c'.settled && c'.acks == c.acks
  {
    hide OldOrNew, AcksKept;
  }

  // ---------- Versions ----------

  // Of two acknowledged stores, the later one returned the larger version, provided every
  // live server held the earlier one when it was acknowledged.
  lemma VersionsStrictlyIncrease(b: seq<Cluster>, i: nat, k: nat, l: nat)
    requires Behaviour(b) && i < |b| && k < l < |b[i].acks| && b[i].acks[k].held
    ensures b[i].acks[k].version < b[i].acks[l].version
  {
    BehaviourInv(b, i);
  }

  // Continuations of a history.
  ghost predicate Path(p: seq<Cluster>)
  {
    p != [] && forall i :: 0 <= i < |p| - 1 ==> Step(p[i], p[i + 1])
  }

  lemma {:induction false} PathInv(p: seq<Cluster>, i: nat)
    requires Path(p) && Inv(p[0]) && i < |p|
    ensures Inv(p[i])
  {
    hide Step, Inv;
    if i > 0 {
      PathInv(p, i - 1);
      StepInv(p[i - 1], p[i - 1 + 1]);
    }
  }

  lemma JoinPaths(p: seq<Cluster>, q: seq<Cluster>)
    requires Path(p) && Path(q) && p[|p| - 1] == q[0]
    ensures Path(p + q[1..]) && (p + q[1..])[0] == p[0] && (p + q[1..])[|p + q[1..]| - 1] == q[|q| - 1]
  {
    hide Step;
    var r := p + q[1..];
    forall i | 0 <= i < |r| - 1
      ensures Step(r[i], r[i + 1])
    {
      if i < |p| - 1 {
        assert r[i] == p[i] && r[i + 1] == p[i + 1];
      } else {
        assert r[i] == q[i - |p| + 1] && r[i + 1] == q[i - |p| + 1 + 1];
      }
    }
  }

  lemma {:induction false} CrashAll(c: Cluster, victims: set<Id>) returns (p: seq<Cluster>)
    requires c.op == None && victims <= c.live
    ensures Path(p) && p[0] == c && forall i :: 0 <= i < |p| ==> p[i].op == None
    ensures p[|p| - 1] == c.(live := c.live - victims,
      primary := if c.primary.Some? && c.primary.value in victims then None else c.primary)
    decreases victims
  {
    if victims == {} {
      p := [c];
      assert c.live - victims == c.live;
    } else {
      var s :| s in victims;
      var next := c.(live := c.live - {s}, primary := if c.primary == Some(s) then None else c.primary);
      assert Crash(c, next, s) && Step(c, next);
      var rest := CrashAll(next, victims - {s});
      assert next.live - (victims - {s}) == c.live - victims;
      JoinPaths([c, next], rest);
      p := [c, next] + rest[1..];
    }
  }

  lemma {:induction false} ReplicateNowhere(c: Cluster) returns (p: seq<Cluster>)
    requires c.op.Some? && c.op.value.phase == Replicating
    ensures Path(p) && p[0] == c
    ensures p[|p| - 1] == c.(op := Some(c.op.value.(todo := {})))
    decreases c.op.value.todo
  {
    if c.op.value.todo == {} {
      p := [c];
    } else {
      var s :| s in c.op.value.todo;
      var next := c.(op := Some(c.op.value.(todo := c.op.value.todo - {s})));
      assert ReplicateTo(c, next, s, false) && Step(c, next);
      var rest := ReplicateNowhere(next);
      JoinPaths([c, next], rest);
      p := [c, next] + rest[1..];
    }
  }

  // A lone live primary can store and acknowledge.
  lemma StoreAlone(c: Cluster, s: Id, content: Bytes) returns (p: seq<Cluster>)
    requires c.op == None && c.primary == Some(s) && c.live == {s} && s in c.copies && content != []
    ensures Path(p) && p[0] == c
    ensures var end := p[|p| - 1];
      |end.acks| == |c.acks| + 1 && end.acks[..|c.acks|] == c.acks
      && end.acks[|c.acks|].version == VersionOf(c.copies[s]) + 1
  {
    var op := Op(Storing, content, Receiving, Missing, {}, c.copies);
    var c1 := c.(op := Some(op), settled := false);
    var c2 := c1.(copies := c.copies[s := Copy(content, VersionOf(c.copies[s]))], op := Some(op.(phase := Renamed)));
    var target := Copy(content, VersionOf(c.copies[s]) + 1);
    var c3 := c1.(copies := c2.copies[s := target],
                  op := Some(op.(phase := Replicating, target := target, todo := c2.copies.Keys - {s})));
    assert BeginStore(c, c1, content) && Step(c, c1);
    assert Rename(c1, c2) && Step(c1, c2);
    assert RaiseVersion(c2, c3) && Step(c2, c3);
    var told := ReplicateNowhere(c3);
    var c4 := told[|told| - 1];
    var c5 := c4.(op := None, settled := WholeOnAll(c4, target),
                  acks := c4.acks + [Ack(target.version, content, HeldByAll(c4, target.version))]);
    assert Finish(c4, c5) && Step(c4, c5);
    var first := [c, c1, c2, c3];
    assert Path(first);
    JoinPaths(first, told);
    JoinPaths(first + told[1..], [c4, c5]);
    p := first + told[1..] + [c4, c5][1..];
  }

  // If some live server lacks an acknowledged version, its promotion after the others
  // crash makes a later store return that version again, or a smaller one.
  lemma VersionCanRepeat(c: Cluster, s: Id, v: nat) returns (p: seq<Cluster>)
    requires Shape(c) && c.op == None && s in c.live && VersionOf(c.copies[s]) < v
    ensures Path(p) && p[0] == c
    ensures c.acks < p[|p| - 1].acks && p[|p| - 1].acks[|c.acks|].version <= v
  {
    hide Step;
    var crashed := CrashAll(c, c.live - {s});
    var c1 := crashed[|crashed| - 1];
    assert c1.live == {s};
    var c2 := c1.(primary := Some(s));
    p := crashed;
    if c1.primary == None {
      PromoteStep(c1, s);
      JoinPaths(p, [c1, c2]);
      p := p + [c1, c2][1..];
    }
    var stored := StoreAlone(c2, s, [1]);
    JoinPaths(p, stored);
    p := p + stored[1..];
  }

  lemma PromoteStep(c: Cluster, s: Id)
    requires c.primary == None && s in c.live
    ensures Path([c, c.(primary := Some(s))])
  {
    assert Promote(c, c.(primary := Some(s)), s);
  }

  // The next store to be acknowledged after an acknowledgement returns a larger version in
  // every continuation exactly when every live server held the acknowledged one.
  lemma SafeIffHeldByAll(b: seq<Cluster>)
    requires Behaviour(b) && |b| >= 2 && Finish(b[|b| - 2], b[|b| - 1])
    requires b[|b| - 2].op.value.action == Storing
    ensures var c := b[|b| - 1];
      c.acks != [] &&
      var v := c.acks[|c.acks| - 1].version;
      HeldByAll(c, v) <==>
        forall p: seq<Cluster> :: Path(p) && p[0] == c && c.acks < p[|p| - 1].acks ==>
          p[|p| - 1].acks[|c.acks|].version > v
  {
    hide Step, Inv, Finish;
    BehaviourInv(b, |b| - 2);
    BehaviourInv(b, |b| - 1);
    var c := b[|b| - 1];
    FinishRecords(b[|b| - 2], c);
    var v := c.acks[|c.acks| - 1].version;
    if HeldByAll(c, v) {
      forall p: seq<Cluster> | Path(p) && p[0] == c && c.acks < p[|p| - 1].acks
        ensures p[|p| - 1].acks[|c.acks|].version > v
      {
        SafeWhenHeld(c, p);
      }
    } else {
      var s :| s in c.live && s in c.copies && VersionOf(c.copies[s]) < v;
      ShapeOf(c);
      var p := VersionCanRepeat(c, s, v);
      assert Path(p) && p[0] == c && c.acks < p[|p| - 1].acks && !(p[|p| - 1].acks[|c.acks|].version > v);
    }
  }

  lemma ShapeOf(c: Cluster)
    requires Inv(c)
    ensures Shape(c)
  {
  }

  lemma FinishRecords(c: Cluster, c': Cluster)
    requires Inv(c) && Finish(c, c') && c.op.value.action == Storing
    ensures c'.op == None && c'.acks != []
    ensures c'.acks[|c'.acks| - 1].held == HeldByAll(c', c'.acks[|c'.acks| - 1].version)
  {
  }

  lemma SafeWhenHeld(c: Cluster, p: seq<Cluster>)
    requires Inv(c) && Path(p) && p[0] == c && c.acks != [] && c.acks[|c.acks| - 1].held
    requires c.acks < p[|p| - 1].acks
    ensures p[|p| - 1].acks[|c.acks|].version > c.acks[|c.acks| - 1].version
  {
    hide Step, OldOrNew, Shape, Settled;
    PathInv(p, |p| - 1);
    assert p[|p| - 1].acks[|c.acks| - 1] == c.acks[|c.acks| - 1];
  }

  // Such an acknowledgement occurs: replication to a live backup fails, and the store is
  // acknowledged all the same.
  lemma UnreplicatedStoreIsAcknowledged(content: Bytes) returns (b: seq<Cluster>)
    requires content != []
    ensures Behaviour(b) && |b| >= 2 && Finish(b[|b| - 2], b[|b| - 1])
    ensures b[|b| - 2].op.value.action == Storing
    ensures var c := b[|b| - 1]; c.acks == [Ack(2, content, false)] && !HeldByAll(c, 2)
    ensures var c := b[|b| - 1]; "s2" in c.live && "s2" in c.copies && c.copies["s2"] == Copy([0], 1)
  {
    var earlier := Copy([0], 1);
    var new' := Copy(content, 2);
    var copies := map["s1" := earlier, "s2" := earlier];
    var c0 := Cluster(copies, {"s1", "s2"}, Some("s1"), None, [], false);
    var op := Op(Storing, content, Receiving, Missing, {}, copies);
    var c1 := c0.(op := Some(op));
    var c2 := c1.(copies := copies["s1" := Copy(content, 1)], op := Some(op.(phase := Renamed)));
    var replicating := op.(phase := Replicating, target := new', todo := {"s2"});
    var after := copies["s1" := new'];
    assert c2.copies["s1" := new'] == after && c2.copies.Keys - {"s1"} == {"s2"};
    var c3 := c0.(copies := after, op := Some(replicating));
    var c4 := c3.(op := Some(replicating.(todo := {})));
    var c5 := c0.(copies := after, op := None, acks := [Ack(2, content, false)]);
    assert "s2" in c4.live && "s2" in c4.copies && VersionOf(c4.copies["s2"]) == 1 && c4.copies["s2"] != new';
    b := [c0];
    hide Behaviour, Step, Finish, HeldByAll, WholeOnAll;
    assert BeginStore(c0, c1, content);
    Then(b, c1);
    assert Rename(c1, c2);
    Then(b + [c1], c2);
    assert RaiseVersion(c2, c3);
    Then(b + [c1] + [c2], c3);
    assert {"s2"} - {"s2"} == {};
    assert ReplicateTo(c3, c4, "s2", false);
    Then(b + [c1] + [c2] + [c3], c4);
    LastStep(c4, c5, content);
    Then(b + [c1] + [c2] + [c3] + [c4], c5);
    b := b + [c1] + [c2] + [c3] + [c4] + [c5];
  }

  lemma Then(b: seq<Cluster>, c: Cluster)
    requires b != [] && Behaviour(b)
    requires LocalStep(b[|b| - 1], c) || RemoteStep(b[|b| - 1], c)
    ensures Behaviour(b + [c])
  {
    hide LocalStep, RemoteStep, Init;
    var b' := b + [c];
    assert Step(b[|b| - 1], c);
    forall i | 0 <= i < |b'| - 1
      ensures Step(b'[i], b'[i + 1])
    {
      if i < |b| - 1 { assert b'[i] == b[i] && b'[i + 1] == b[i + 1]; }
    }
  }

  lemma LastStep(c: Cluster, c': Cluster, content: Bytes)
    requires c.op.Some? && c.op.value.phase == Replicating && c.op.value.todo == {} && c.op.value.action == Storing
    requires c.op.value.target == Copy(content, 2) && c.acks == [] && !c.settled
    requires "s2" in c.live && "s2" in c.copies && c.copies["s2"] == Copy([0], 1)
    requires c' == c.(op := None, acks := [Ack(2, content, false)])
    ensures Finish(c, c') && !HeldByAll(c', 2)
  {
    assert VersionOf(c.copies["s2"]) == 1;
  }

  // ---------- Truncated copies ----------

  // A copy cut short at a chunk boundary, under the full version.
  ghost predicate Truncation(copy: Copy, whole: Copy)
  {
    whole.Copy? && exists j :: 1 <= j < PieceCount(whole.content) && copy == CutAt(whole, j)
  }

  // A continuation in which no mutation begins.
  ghost predicate QuietPath(p: seq<Cluster>)
  {
    Path(p) && forall i :: 0 <= i < |p| ==> p[i].op == None
  }

  ghost predicate ServesTruncated(c: Cluster, whole: Copy)
  {
    c.primary.Some? && c.primary.value in c.copies && Truncation(c.copies[c.primary.value], whole)
  }

  ghost predicate ComesToServe(p: seq<Cluster>, c: Cluster, whole: Copy)
  {
    QuietPath(p) && p[0] == c && ServesTruncated(p[|p| - 1], whole)
  }

  lemma MoreThanOnePiece(content: Bytes)
    ensures PieceCount(content) > 1 <==> |content| > CHUNK_SIZE
  {
    if |content| > CHUNK_SIZE {
      NoPieces(content[CHUNK_SIZE..], CHUNK_SIZE);
    }
  }

  lemma JoinQuiet(p: seq<Cluster>, q: seq<Cluster>) returns (r: seq<Cluster>)
    requires QuietPath(p) && QuietPath(q) && p[|p| - 1] == q[0]
    ensures QuietPath(r) && r[0] == p[0] && r[|r| - 1] == q[|q| - 1]
  {
    hide Step;
    JoinPaths(p, q);
    r := p + q[1..];
  }

  // A server that alone survives is promoted.
  lemma SurviveAlone(c: Cluster, s: Id) returns (p: seq<Cluster>)
    requires c.op == None && s in c.live && c.primary != Some(s)
    requires c.primary.Some? ==> c.primary.value in c.live
    ensures QuietPath(p) && p[0] == c && p[|p| - 1].primary == Some(s) && p[|p| - 1].copies == c.copies
  {
    hide Step;
    p := CrashAll(c, c.live - {s});
    var c1 := p[|p| - 1];
    PromoteStep(c1, s);
    p := JoinQuiet(p, [c1, c1.(primary := Some(s))]);
  }

  // A backup that misses a large store syncs a part of it, and then alone survives.
  lemma LagToTruncation(c: Cluster, s: Id) returns (p: seq<Cluster>)
    requires CanBegin(c) && s in c.live && s in c.copies && Lags(c.copies[s], c.copies[c.primary.value])
    requires PieceCount(c.copies[c.primary.value].content) > 1
    ensures ComesToServe(p, c, c.copies[c.primary.value])
  {
    hide PieceCount, CutAt;
    var whole := c.copies[c.primary.value];
    var c1 := c.(copies := c.copies[s := CutAt(whole, 1)]);
    assert CatchUp(c, c1, s, 1);
    assert Step(c, c1);
    hide Step;
    assert Truncation(c1.copies[s], whole);
    var q := SurviveAlone(c1, s);
    p := JoinQuiet([c, c1], q);
  }

  // Nobody lags behind a copy or has it truncated.
  ghost predicate NoneCut(c: Cluster, whole: Copy)
  {
    forall s :: s in c.live && s in c.copies ==> !Lags(c.copies[s], whole) && !Truncation(c.copies[s], whole)
  }

  lemma NoneCutStep(c: Cluster, c': Cluster, whole: Copy)
    requires NoneCut(c, whole) && c.op == None && c'.op == None && Step(c, c')
    ensures NoneCut(c', whole)
  {
    hide PieceCount;
  }

  lemma {:induction false} NoneCutForGood(p: seq<Cluster>, i: nat, whole: Copy)
    requires QuietPath(p) && NoneCut(p[0], whole) && i < |p|
    ensures NoneCut(p[i], whole)
  {
    hide Step, NoneCut;
    if i > 0 {
      NoneCutForGood(p, i - 1, whole);
      NoneCutStep(p[i - 1], p[i - 1 + 1], whole);
    }
  }

  // Whoever stands by while a large store is acknowledged without it, or already has a part of
  // it under that version.
  ghost predicate SomeoneMissesIt(c: Cluster, whole: Copy)
  {
    exists s :: s in c.live && s in c.copies && (Lags(c.copies[s], whole) || Truncation(c.copies[s], whole))
  }

  // After an acknowledged store, and before the next mutation, a primary can come to serve a
  // truncated copy of it exactly when the file is larger than a chunk and some live server
  // missed the store.
  lemma ServesTruncatedIff(b: seq<Cluster>)
    requires Behaviour(b) && |b| >= 2 && Finish(b[|b| - 2], b[|b| - 1])
    requires b[|b| - 2].op.value.action == Storing
    ensures var c := b[|b| - 1];
      && c.acks != []
      && var whole := LastAcked(c);
         (exists p :: ComesToServe(p, c, whole)) <==>
           |whole.content| > CHUNK_SIZE && SomeoneMissesIt(c, whole)
  {
    hide Step, Inv, Finish, PieceCount, CutAt;
    BehaviourInv(b, |b| - 2);
    BehaviourInv(b, |b| - 1);
    var c := b[|b| - 1];
    FinishRecords(b[|b| - 2], c);
    PrimaryHasIt(b[|b| - 2], c);
    ShapeOf(c);
    var whole := LastAcked(c);
    MoreThanOnePiece(whole.content);
    if |whole.content| > CHUNK_SIZE && SomeoneMissesIt(c, whole) {
      var s :| s in c.live && s in c.copies && (Lags(c.copies[s], whole) || Truncation(c.copies[s], whole));
      if Lags(c.copies[s], whole) {
        var p := LagToTruncation(c, s);
        assert ComesToServe(p, c, whole);
      } else {
        NotItself(whole);
        var p := SurviveAlone(c, s);
        assert ComesToServe(p, c, whole);
      }
    }
    if p :| ComesToServe(p, c, whole) {
      if !SomeoneMissesIt(c, whole) {
        NoneCutForGood(p, |p| - 1, whole);
        PathInv(p, |p| - 1);
        ShapeOf(p[|p| - 1]);
      }
    }
  }

  lemma Continue(b: seq<Cluster>, p: seq<Cluster>) returns (r: seq<Cluster>)
    requires Behaviour(b) && Path(p) && p[0] == b[|b| - 1]
    ensures Behaviour(r) && b <= r && r[|r| - 1] == p[|p| - 1]
  {
    hide Step, Init;
    JoinPaths(b, p);
    r := b + p[1..];
  }

  // Such a history exists for every content larger than a chunk.
  lemma TruncatedStoreIsServed(content: Bytes) returns (b: seq<Cluster>, r: seq<Cluster>)
    requires |content| > CHUNK_SIZE
    ensures Behaviour(b) && b[|b| - 1].acks == [Ack(2, content, false)]
    ensures Behaviour(r) && b <= r && ServesTruncated(r[|r| - 1], Copy(content, 2))
  {
    hide Behaviour, ServesTruncated, Path, Finish, PieceCount;
    b := UnreplicatedStoreIsAcknowledged(content);
    var c := b[|b| - 1];
    ServesTruncatedIff(b);
    assert Lags(c.copies["s2"], LastAcked(c));
    var p :| ComesToServe(p, c, LastAcked(c));
    r := Continue(b, p);
  }

  // A whole copy is not a truncation of itself.
  lemma NotItself(whole: Copy)
    ensures !Truncation(whole, whole)
  {
    if Truncation(whole, whole) {
      var j :| 1 <= j < PieceCount(whole.content) && whole == CutAt(whole, j);
      PiecesRebuild(whole.content, CHUNK_SIZE);
      PrefixIsShorter(Pieces(whole.content, CHUNK_SIZE), j);
    }
  }

  lemma PrimaryHasIt(c: Cluster, c': Cluster)
    requires Inv(c) && Finish(c, c') && c.op.value.action == Storing
    ensures c'.acks != [] && CanBegin(c') && c'.copies[c'.primary.value] == LastAcked(c')
  {
  }

  // ---------- The steps are what the handlers do ----------

  // Renaming and raising the version is what the store handler does to this path, and the
  // handler leaves every other path alone.
  lemma HandlerStores(s: Server, path: string, c: string, q: int, content: Bytes, other: string)
    requires Consistent(s) && s.primary && DedupKey(c, q) !in s.dedup && content != [] && other != path
    ensures var s' := Handle(s, StoreReq(StoreFrames(path, c, q, Pieces(content, CHUNK_SIZE)), true)).0;
      && CopyOf(s', path) == Copy(content, VersionOf(CopyOf(s, path)) + 1)
      && CopyOf(s', other) == CopyOf(s, other)
  {
    hide Handle, StoreFrames, Pieces, DedupKey;
    StoreDelivers(s, path, c, q, content);
  }

  // Being told a target is what the replication handler does to this path, for every operation
  // as it is sent: a delete removes the file, a create makes an empty one, and a store installs
  // the whole copy if its stream ends and nothing if it breaks. Other paths are left alone.
  lemma HandlerReplicates(backup: Server, operation: Operation, path: string, content: Bytes, version: nat,
                          eof: bool, other: string)
    requires other != path
    ensures var b' := Replicated(backup, ReplicaSent(operation, path, content, version), eof);
      && CopyOf(b', other) == CopyOf(backup, other)
      && (operation == DeleteOp ==> CopyOf(b', path) == Missing && path !in b'.versions)
      && (operation == CreateOp ==> CopyOf(b', path) == Copy([], version))
      && (operation == StoreOp ==>
            CopyOf(b', path) == if eof && content != [] then Copy(content, version) else CopyOf(backup, path))
  {
    if operation == StoreOp {
      if content == [] {
        NoPieces(content, CHUNK_SIZE);
        assert ReplicateFrames(path, version, Pieces(content, CHUNK_SIZE)) == [];
      } else {
        hide Replicated, ReplicateFrames, Pieces;
        ReplicationDelivers(backup, path, version, content, eof);
      }
    }
  }

  // The primary's own creates and deletes.
  lemma HandlerCreatesAndDeletes(s: Server, path: string, c: string, q: int, other: string)
    requires s.primary && DedupKey(c, q) !in s.dedup && other != path
    ensures var s' := Handle(s, CreateReq(path, c, q)).0;
      && CopyOf(s', path) == (if CopyOf(s, path) == Missing then Copy([], 1) else CopyOf(s, path))
      && CopyOf(s', other) == CopyOf(s, other)
    ensures var s' := Handle(s, DeleteReq(path, c, q)).0;
      CopyOf(s', path) == Missing && CopyOf(s', other) == CopyOf(s, other)
  {
    hide DedupKey;
  }

  // Step by step: a server whose copy is the primary's in the cluster has, after the handler, the
  // copy that the cluster has after its steps, and the cluster tells the backups just that.
  lemma StoreStepsAreTheHandlers(c: Cluster, c1: Cluster, c2: Cluster, c3: Cluster, content: Bytes,
                                 s: Server, path: string, id: string, q: int)
    requires BeginStore(c, c1, content) && Rename(c1, c2) && RaiseVersion(c2, c3)
    requires Consistent(s) && s.primary && DedupKey(id, q) !in s.dedup
    requires CopyOf(s, path) == c.copies[c.primary.value]
    ensures var s' := Handle(s, StoreReq(StoreFrames(path, id, q, Pieces(content, CHUNK_SIZE)), true)).0;
      && c3.primary == c.primary && c3.copies == c.copies[c.primary.value := CopyOf(s', path)]
      && c3.op.Some? && c3.op.value.target == CopyOf(s', path) && c3.op.value.todo == c.copies.Keys - {c.primary.value}
  {
    hide Handle, StoreFrames, Pieces, DedupKey;
    HandlerStores(s, path, id, q, content, path + "x");
  }

  lemma OtherStepsAreTheHandlers(c: Cluster, c1: Cluster, s: Server, path: string, id: string, q: int)
    requires BeginCreate(c, c1) || BeginDelete(c, c1)
    requires s.primary && DedupKey(id, q) !in s.dedup && CopyOf(s, path) == c.copies[c.primary.value]
    ensures var r := if BeginCreate(c, c1) then CreateReq(path, id, q) else DeleteReq(path, id, q);
      var s' := Handle(s, r).0;
      && c1.primary == c.primary && c1.copies == c.copies[c.primary.value := CopyOf(s', path)]
      && c1.op.Some? && c1.op.value.target == CopyOf(s', path) && c1.op.value.todo == c.copies.Keys - {c.primary.value}
  {
    hide Handle, DedupKey;
    HandlerCreatesAndDeletes(s, path, id, q, path + "x");
  }

  // A backup that is told ends up with what its handler makes of the chunks for that operation.
  lemma TellingIsTheHandlers(c: Cluster, c1: Cluster, b: Id, installed: bool, backup: Server, path: string)
    requires Shape(c) && OldOrNew(c) && ReplicateTo(c, c1, b, installed)
    requires b in c.copies && CopyOf(backup, path) == c.copies[b]
    ensures var op := c.op.value;
      var operation := match op.action case Storing => StoreOp case Creating => CreateOp case Deleting => DeleteOp;
      var sent := ReplicaSent(operation, path, op.content, VersionOf(op.target));
      installed ==> c1.copies == c.copies[b := CopyOf(Replicated(backup, sent, true), path)]
  {
    hide Replicated, ReplicaSent;
    var op := c.op.value;
    var operation := match op.action case Storing => StoreOp case Creating => CreateOp case Deleting => DeleteOp;
    HandlerReplicates(backup, operation, path, op.content, VersionOf(op.target), true, path + "x");
  }

  // Catching up is what the receiver of a sync stream does to this path, whether the stream
  // ended after j pieces or broke off there.
  lemma ReceiverCatchesUp(backup: Server, path: string, whole: Copy, j: nat)
    requires Consistent(backup) && path != ""
    requires whole.Copy? && 1 <= j <= PieceCount(whole.content)
    ensures var e := Entry(path, whole.content, whole.version);
      var chunks := FileFrames(e, Pieces(whole.content, CHUNK_SIZE))[..j];
      var r := Finalize(AcceptAll(Begin(backup.files, backup.versions), chunks));
      CopyOf(backup.(files := r.files, versions := r.versions), path) ==
        if Lags(CopyOf(backup, path), whole) then CutAt(whole, j) else CopyOf(backup, path)
  {
    hide Pieces, Flatten, FileFrames, AcceptAll, Finalize;
    var e := Entry(path, whole.content, whole.version);
    var f := Framed(e, Pieces(whole.content, CHUNK_SIZE));
    NotEmpty(whole.content);
    FramingIsWellFramed(e);
    AcceptOneMore(Begin(backup.files, backup.versions), f, j);
    BeginsClean(backup.files, backup.versions);
  }

  lemma NotEmpty(content: Bytes)
    requires PieceCount(content) > 0
    ensures content != []
  {
  }

  lemma BeginsClean(files: map<string, Bytes>, versions: map<string, nat>)
    ensures StoreOf(Finalize(Begin(files, versions))) == Sync.Store(files, versions)
  {
  }
}
