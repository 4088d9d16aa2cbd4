/**
 Election of a primary: the live server with the smallest id promotes itself and announces it.
 Elections interleave with each other, crashes, restarts and late messages.
 */
module Election {
  import opened Sequences

  type Id = string

  // ---------- The order of ids ----------

  predicate Less(a: Id, b: Id)
  {
    b != "" && (a == "" || a[0] < b[0] || (a[0] == b[0] && Less(a[1..], b[1..])))
  }

  // The ids are equal up to position k, where the first one ends or has the smaller character.
  predicate LessAt(a: Id, b: Id, k: nat)
  {
    k <= |a| && k < |b| && a[..k] == b[..k] && (k == |a| || a[k] < b[k])
  }

  // Ids are compared as strings are: the first difference decides, whatever the lengths.
  lemma {:induction false} LessIff(a: Id, b: Id)
    ensures Less(a, b) <==> exists k: nat :: LessAt(a, b, k)
  {
    if Less(a, b) {
      if a == "" || a[0] < b[0] {
        assert LessAt(a, b, 0);
      } else {
        LessIff(a[1..], b[1..]);
        var k: nat :| LessAt(a[1..], b[1..], k);
        assert a[..k + 1] == [a[0]] + a[1..][..k] && b[..k + 1] == [b[0]] + b[1..][..k];
        assert LessAt(a, b, k + 1);
      }
    }
    if k: nat :| LessAt(a, b, k) {
      if k > 0 {
        assert a[0] == a[..k][0] && b[0] == b[..k][0];
        assert a[1..][..k - 1] == a[..k][1..] && b[1..][..k - 1] == b[..k][1..];
        assert LessAt(a[1..], b[1..], k - 1);
        LessIff(a[1..], b[1..]);
      }
    }
  }

  lemma {:induction false} LessIrreflexive(a: Id)
    ensures !Less(a, a)
  {
    if a != "" { LessIrreflexive(a[1..]); }
  }

  lemma {:induction false} LessTransitive(a: Id, b: Id, c: Id)
    requires Less(a, b) && Less(b, c)
    ensures Less(a, c)
  {
    if a != "" && a[0] == b[0] == c[0] {
      LessTransitive(a[1..], b[1..], c[1..]);
    }
  }

  lemma {:induction false} LessTotal(a: Id, b: Id)
    ensures a == b || Less(a, b) || Less(b, a)
  {
    if a != "" && b != "" && a[0] == b[0] {
      LessTotal(a[1..], b[1..]);
      assert a == [a[0]] + a[1..] && b == [b[0]] + b[1..];
    }
  }

  lemma LessAsymmetric(a: Id, b: Id)
    requires Less(a, b)
    ensures !Less(b, a)
  {
    if Less(b, a) {
      LessTransitive(a, b, a);
      LessIrreflexive(a);
    }
  }

  ghost predicate IsLeast(m: Id, s: set<Id>)
  {
    m in s && forall x :: x in s ==> !Less(x, m)
  }

  lemma LeastUnique(m: Id, n: Id, s: set<Id>)
    requires IsLeast(m, s) && IsLeast(n, s)
    ensures m == n
  {
    LessTotal(m, n);
  }

  // ---------- One server's election ----------

  // The probe loop: peers in the order of the peer list, each found alive or not.
  method RunElection(self: Id, peers: seq<Id>, alive: seq<bool>) returns (winner: Id, livePeers: seq<Id>)
    requires |alive| == |peers|
    ensures Elements(livePeers) == Found(peers, alive)
    ensures IsLeast(winner, {self} + Found(peers, alive))
    ensures winner == self <==> forall i :: 0 <= i < |peers| && Less(peers[i], self) ==> !alive[i]
  {
    winner, livePeers := self, [];
    LessIrreflexive(self);
    for i := 0 to |peers|
      invariant Elements(livePeers) == Found(peers[..i], alive[..i])
      invariant IsLeast(winner, {self} + Found(peers[..i], alive[..i]))
    {
      FoundOneMore(peers, alive, i);
      var peer := peers[i];
      if alive[i] {
        ghost var before := {self} + Found(peers[..i], alive[..i]);
        livePeers := livePeers + [peer];
        LeastOfMore(winner, before, peer);
        if Less(peer, winner) {
          winner := peer;
        }
      }
    }
    assert peers[..|peers|] == peers && alive[..|alive|] == alive;
    WinnerIsSelf(self, peers, alive, winner);
  }

  ghost function Found(peers: seq<Id>, alive: seq<bool>): set<Id>
    requires |alive| == |peers|
  {
    set i | 0 <= i < |peers| && alive[i] :: peers[i]
  }

  lemma FoundOneMore(peers: seq<Id>, alive: seq<bool>, i: nat)
    requires |alive| == |peers| && i < |peers|
    ensures Found(peers[..i + 1], alive[..i + 1]) == Found(peers[..i], alive[..i]) + if alive[i] then {peers[i]} else {}
  {
    var p, a := peers[..i + 1], alive[..i + 1];
    forall x | x in Found(peers[..i], alive[..i])
      ensures x in Found(p, a)
    {
      var k :| 0 <= k < i && alive[..i][k] && peers[..i][k] == x;
      assert a[k] && p[k] == x;
    }
    if alive[i] { assert a[i] && p[i] == peers[i]; }
  }

  lemma LeastOfMore(m: Id, s: set<Id>, x: Id)
    requires IsLeast(m, s)
    ensures IsLeast(if Less(x, m) then x else m, s + {x})
  {
    LessIrreflexive(x);
    if Less(x, m) {
      forall y | y in s
        ensures !Less(y, x)
      {
        if Less(y, x) { LessTransitive(y, x, m); }
      }
    }
  }

  lemma WinnerIsSelf(self: Id, peers: seq<Id>, alive: seq<bool>, winner: Id)
    requires |alive| == |peers| && IsLeast(winner, {self} + Found(peers, alive))
    ensures winner == self <==> forall i :: 0 <= i < |peers| && Less(peers[i], self) ==> !alive[i]
  {
    var all := {self} + Found(peers, alive);
    if winner == self {
      forall i | 0 <= i < |peers| && alive[i]
        ensures !Less(peers[i], self)
      {
        assert peers[i] in all;
      }
    } else {
      var i :| 0 <= i < |peers| && alive[i] && peers[i] == winner;
      assert self in all;
      LessTotal(winner, self);
    }
  }

  // The probe results of a peer list when exactly the servers in live answer.
  ghost function ProbesOf(peers: seq<Id>, live: set<Id>): (alive: seq<bool>)
    ensures |alive| == |peers|
  {
    seq(|peers|, i requires 0 <= i < |peers| => peers[i] in live)
  }

  // The same peers listed in two orders, with or without repetition, give one winner.
  lemma WinnerIndependentOfOrder(self: Id, p1: seq<Id>, p2: seq<Id>, live: set<Id>, w1: Id, w2: Id)
    requires Elements(p1) == Elements(p2)
    requires IsLeast(w1, {self} + Found(p1, ProbesOf(p1, live)))
    requires IsLeast(w2, {self} + Found(p2, ProbesOf(p2, live)))
    ensures w1 == w2
  {
    FoundIsLive(p1, live);
    FoundIsLive(p2, live);
    LeastUnique(w1, w2, {self} + Found(p1, ProbesOf(p1, live)));
  }

  lemma FoundIsLive(peers: seq<Id>, live: set<Id>)
    ensures Found(peers, ProbesOf(peers, live)) == Elements(peers) * live
  {
    var alive := ProbesOf(peers, live);
    forall x | x in Elements(peers) * live
      ensures x in Found(peers, alive)
    {
      var i :| 0 <= i < |peers| && peers[i] == x;
      assert alive[i];
    }
  }

  // ---------- All servers ----------

  // An election in progress: the peers probed so far and those found alive.
  datatype Probing = Probing(probed: set<Id>, alive: set<Id>)

  // monitor: the heartbeat monitor is running; sender: the heartbeat sender is running;
  // senderFlag: its compare-and-swap flag, never cleared; promotions: in this process.
  datatype Server = Server(up: bool, primary: bool, known: Option<Id>, monitor: bool, sender: bool,
                           senderFlag: bool, promotions: nat, election: Option<Probing>)

  // mail: announcements (from, to) on their way.
  datatype World = World(servers: map<Id, Server>, mail: set<(Id, Id)>)

  function NewServer(self: Id, asPrimary: bool): Server
  {
    Server(true, asPrimary, if asPrimary then Some(self) else None, !asPrimary, asPrimary, false, 0, None)
  }

  const DOWN_SERVER := Server(false, false, None, false, false, false, 0, None)

  predicate LivePrimary(w: World, s: Id)
  {
    s in w.servers && w.servers[s].up && w.servers[s].primary
  }

  predicate Electing(w: World, s: Id)
  {
    s in w.servers && w.servers[s].up && w.servers[s].election.Some?
  }

  ghost predicate NoLivePrimary(w: World)
  {
    forall s :: !LivePrimary(w, s)
  }

  ghost predicate NoElection(w: World)
  {
    forall s :: !Electing(w, s)
  }

  function With(w: World, s: Id, v: Server): World
  {
    w.(servers := w.servers[s := v])
  }

  ghost predicate Init(w: World)
  {
    && w.mail == {}
    && (forall s :: s in w.servers ==> w.servers[s] == NewServer(s, w.servers[s].primary))
    && forall s, t :: LivePrimary(w, s) && LivePrimary(w, t) ==> s == t
  }

  // The monitor finds the heartbeat overdue; it is assumed to do so only without a live primary.
  ghost predicate StartElection(w: World, w': World, s: Id)
  {
    && s in w.servers && w.servers[s].up && w.servers[s].monitor && !w.servers[s].primary
    && w.servers[s].election == None && NoLivePrimary(w)
    && w' == With(w, s, w.servers[s].(election := Some(Probing({}, {}))))
  }

  // A probe reports whether the peer is up.
  predicate Probe(w: World, w': World, s: Id, p: Id)
  {
    && Electing(w, s) && p in w.servers && p != s && p !in w.servers[s].election.value.probed
    && var e := w.servers[s].election.value;
       w' == With(w, s, w.servers[s].(election :=
         Some(Probing(e.probed + {p}, if w.servers[p].up then e.alive + {p} else e.alive))))
  }

  predicate AllProbed(w: World, s: Id)
  {
    Electing(w, s) && w.servers.Keys <= w.servers[s].election.value.probed + {s}
  }

  function Promoted(v: Server, s: Id): Server
  {
    v.(primary := true, known := Some(s), monitor := false, election := None, promotions := v.promotions + 1,
       senderFlag := true, sender := v.sender || !v.senderFlag)
  }

  // What a server knows after it was told who the primary is.
  function Adopted(v: Server, self: Id, addr: Id): Server
  {
    v.(known := Some(addr), primary := addr == self)
  }

  // All peers are probed: the server promotes itself and announces it to the live peers.
  ghost predicate Win(w: World, w': World, s: Id)
  {
    && AllProbed(w, s) && IsLeast(s, {s} + w.servers[s].election.value.alive)
    && w' == World(w.servers[s := Promoted(w.servers[s], s)],
                   w.mail + set p | p in w.servers[s].election.value.alive :: (s, p))
  }

  // Or it settles for a peer with a smaller id.
  ghost predicate Lose(w: World, w': World, s: Id, winner: Id)
  {
    && AllProbed(w, s) && winner != s && IsLeast(winner, {s} + w.servers[s].election.value.alive)
    && w' == With(w, s, Adopted(w.servers[s], s, winner).(election := None))
  }

  // An announcement arrives: the receiver adopts the sender as primary.
  predicate Deliver(w: World, w': World, from: Id, to: Id)
  {
    && (from, to) in w.mail && to in w.servers && w.servers[to].up
    && w' == World(w.servers[to := Adopted(w.servers[to], to, from)], w.mail - {(from, to)})
  }

  predicate Lost(w: World, w': World, from: Id, to: Id)
  {
    (from, to) in w.mail && w' == w.(mail := w.mail - {(from, to)})
  }

  // A heartbeat of a live primary tells a backup who the primary is.
  predicate Heartbeat(w: World, w': World, from: Id, to: Id)
  {
    && LivePrimary(w, from) && w.servers[from].sender && to in w.servers && w.servers[to].up && !w.servers[to].primary
    && w' == With(w, to, w.servers[to].(known := Some(from)))
  }

  // The sender of a server that is no longer primary ends.
  predicate SenderEnds(w: World, w': World, s: Id)
  {
    && s in w.servers && w.servers[s].up && w.servers[s].sender && !w.servers[s].primary
    && w' == With(w, s, w.servers[s].(sender := false))
  }

  predicate Crash(w: World, w': World, s: Id)
  {
    s in w.servers && w.servers[s].up && w' == With(w, s, DOWN_SERVER)
  }

  // A restart happens outside elections; a server started with the primary flag becomes a
  // backup all the same when it finds a live primary.
  ghost predicate Restart(w: World, w': World, s: Id, asPrimary: bool)
  {
    && s in w.servers && !w.servers[s].up && NoElection(w)
    && (asPrimary ==> NoLivePrimary(w))
    && w' == With(w, s, NewServer(s, asPrimary))
  }

  ghost predicate ElectionStep(w: World, w': World)
  {
    || (exists s :: StartElection(w, w', s)) || (exists s, p :: Probe(w, w', s, p))
    || (exists s :: Win(w, w', s)) || (exists s, p :: Lose(w, w', s, p))
  }

  ghost predicate MessageStep(w: World, w': World)
  {
    || (exists p, q :: Deliver(w, w', p, q)) || (exists p, q :: Lost(w, w', p, q))
    || (exists p, q :: Heartbeat(w, w', p, q)) || (exists s :: SenderEnds(w, w', s))
  }

  ghost predicate OtherStep(w: World, w': World)
  {
    MessageStep(w, w') || exists s :: Crash(w, w', s)
  }

  ghost predicate Step(w: World, w': World)
  {
    ElectionStep(w, w') || OtherStep(w, w') || exists s, p :: Restart(w, w', s, p)
  }

  ghost predicate Behaviour(b: seq<World>)
  {
    b != [] && Init(b[0]) && forall i :: 0 <= i < |b| - 1 ==> Step(b[i], b[i + 1])
  }

  // ---------- The invariant ----------

  // A peer found dead by an election in progress is still down.
  ghost predicate DeadStayDead(w: World)
  {
    forall s, p :: Electing(w, s) && p in w.servers && FoundDead(w.servers[s].election.value, p) ==> !w.servers[p].up
  }

  predicate FoundDead(e: Probing, p: Id)
  {
    p in e.probed && p !in e.alive
  }

  // No server below a live primary is electing.
  ghost predicate PrimaryIsBelowElectors(w: World)
  {
    forall t, s :: LivePrimary(w, t) && Electing(w, s) ==> Less(t, s)
  }

  ghost predicate OnePrimary(w: World)
  {
    forall s, t :: LivePrimary(w, s) && LivePrimary(w, t) ==> s == t
  }

  ghost predicate Processes(w: World)
  {
    && (forall s :: s in w.servers ==> ProcessInv(s, w.servers[s]))
    && forall m :: m in w.mail ==> m.0 != m.1
  }

  ghost predicate Inv(w: World)
  {
    DeadStayDead(w) && PrimaryIsBelowElectors(w) && OnePrimary(w) && Processes(w)
  }

  // What one server's process state must satisfy by itself.
  ghost predicate ProcessInv(s: Id, v: Server)
  {
    v.up ==>
      && (v.monitor ==> v.promotions == 0 && !v.senderFlag && !v.primary)
      && (v.primary ==> v.sender) && v.promotions <= 1
      && (v.election.Some? ==>
            && v.monitor && s !in v.election.value.alive && v.election.value.alive <= v.election.value.probed)
  }

  lemma ElectionKeepsProcesses(w: World, w': World)
    requires Processes(w) && ElectionStep(w, w')
    ensures Processes(w')
  {
    hide IsLeast, NoLivePrimary;
  }

  lemma MessageKeepsProcesses(w: World, w': World)
    requires Processes(w) && MessageStep(w, w')
    ensures Processes(w')
  {
    if p, q :| Deliver(w, w', p, q) {
      assert w'.servers[q] == Adopted(w.servers[q], q, p) && p != q;
    }
  }

  lemma OtherKeepsProcesses(w: World, w': World)
    requires Processes(w) && (OtherStep(w, w') || exists s, p :: Restart(w, w', s, p))
    ensures Processes(w')
  {
    hide MessageStep, NoElection, NoLivePrimary;
    if MessageStep(w, w') {
      MessageKeepsProcesses(w, w');
    } else if s :| Crash(w, w', s) {
      hide Restart;
    } else {
      hide Crash;
    }
  }

  // Nobody comes up, and nobody new is electing or has probed more.
  lemma FewerElectors(w: World, w': World)
    requires DeadStayDead(w)
    requires forall s :: Electing(w', s) ==> Electing(w, s) && w'.servers[s].election == w.servers[s].election
    requires forall p :: p in w'.servers && w'.servers[p].up ==> p in w.servers && w.servers[p].up
    requires w'.servers.Keys == w.servers.Keys
    ensures DeadStayDead(w')
  {
  }

  lemma OtherKeepsDead(w: World, w': World)
    requires DeadStayDead(w) && OtherStep(w, w')
    ensures DeadStayDead(w')
  {
    hide DeadStayDead, LivePrimary, NoLivePrimary, ProcessInv;
    FewerElectors(w, w');
  }

  lemma ElectionKeepsDead(w: World, w': World)
    requires DeadStayDead(w) && ElectionStep(w, w')
    ensures DeadStayDead(w')
  {
    hide IsLeast, NoLivePrimary;
    if s, p :| Probe(w, w', s, p) {
      forall t, q | Electing(w', t) && q in w'.servers && FoundDead(w'.servers[t].election.value, q)
        ensures !w'.servers[q].up
      {
        assert Electing(w, t);
      }
    } else if s :| StartElection(w, w', s) {
      forall t, q | Electing(w', t) && q in w'.servers && FoundDead(w'.servers[t].election.value, q)
        ensures !w'.servers[q].up
      {
        assert t != s && Electing(w, t);
      }
    } else {
      FewerElectors(w, w');
    }
  }

  lemma RestartSafe(w: World, w': World, s: Id, asPrimary: bool)
    requires Inv(w) && Restart(w, w', s, asPrimary)
    ensures DeadStayDead(w') && OnePrimary(w') && PrimaryIsBelowElectors(w')
  {
    assert forall t :: Electing(w', t) ==> Electing(w, t);
    assert forall t :: LivePrimary(w', t) ==> LivePrimary(w, t) || (t == s && asPrimary);
  }

  // A winner has found every smaller id dead, so every other live server is above it.
  lemma WinnerIsBelowTheLiving(w: World, s: Id, t: Id)
    requires DeadStayDead(w) && AllProbed(w, s) && IsLeast(s, {s} + w.servers[s].election.value.alive)
    requires t in w.servers && t != s && w.servers[t].up
    ensures Less(s, t)
  {
    var e := w.servers[s].election.value;
    assert t in e.probed;
    assert t in e.alive;
    assert !Less(t, s);
    LessTotal(s, t);
  }

  // So no live primary can exist besides it.
  lemma WinnerFindsNoPrimary(w: World, s: Id, t: Id)
    requires Inv(w) && AllProbed(w, s) && IsLeast(s, {s} + w.servers[s].election.value.alive)
    ensures !LivePrimary(w, t)
  {
    if LivePrimary(w, t) {
      assert w.servers[s].monitor && t != s;
      assert Less(t, s);
      LessAsymmetric(t, s);
      WinnerIsBelowTheLiving(w, s, t);
    }
  }

  lemma WinSafe(w: World, w': World, s: Id)
    requires Inv(w) && Win(w, w', s)
    ensures OnePrimary(w') && PrimaryIsBelowElectors(w')
  {
    forall t
      ensures LivePrimary(w', t) ==> t == s
    {
      WinnerFindsNoPrimary(w, s, t);
    }
    forall t | Electing(w', t)
      ensures Less(s, t)
    {
      WinnerIsBelowTheLiving(w, s, t);
    }
  }

  // Steps that make nobody primary, and nobody an elector unless there is no primary.
  lemma NobodyNew(w: World, w': World)
    requires OnePrimary(w) && PrimaryIsBelowElectors(w)
    requires forall t :: LivePrimary(w', t) ==> LivePrimary(w, t)
    requires NoLivePrimary(w) || forall t :: Electing(w', t) ==> Electing(w, t)
    ensures OnePrimary(w') && PrimaryIsBelowElectors(w')
  {
  }

  lemma ElectionSafe(w: World, w': World)
    requires Inv(w) && ElectionStep(w, w')
    ensures OnePrimary(w') && PrimaryIsBelowElectors(w')
  {
    if s :| Win(w, w', s) {
      WinSafe(w, w', s);
    } else {
      hide Win, IsLeast, Less, DeadStayDead, Processes, NoLivePrimary, OnePrimary, PrimaryIsBelowElectors;
      NobodyNew(w, w');
    }
  }

  lemma OtherSafe(w: World, w': World)
    requires Inv(w) && OtherStep(w, w')
    ensures OnePrimary(w') && PrimaryIsBelowElectors(w')
  {
    hide Less, DeadStayDead, OnePrimary, PrimaryIsBelowElectors;
    NobodyNew(w, w');
  }

  lemma StepInv(w: World, w': World)
    requires Inv(w) && Step(w, w')
    ensures Inv(w')
  {
    hide ElectionStep, OtherStep, Restart, DeadStayDead, PrimaryIsBelowElectors, OnePrimary, Processes;
    if ElectionStep(w, w') {
      ElectionKeepsProcesses(w, w');
      ElectionKeepsDead(w, w');
      ElectionSafe(w, w');
    } else {
      OtherKeepsProcesses(w, w');
      if OtherStep(w, w') {
        OtherKeepsDead(w, w');
        OtherSafe(w, w');
      } else {
        var s, p :| Restart(w, w', s, p);
        RestartSafe(w, w', s, p);
      }
    }
  }

  lemma {:induction false} BehaviourInv(b: seq<World>, i: nat)
    requires Behaviour(b) && i < |b|
    ensures Inv(b[i])
  {
    if i == 0 {
    } else {
      hide Step, Inv;
      BehaviourInv(b, i - 1);
      StepInv(b[i - 1], b[i - 1 + 1]);
    }
  }

  // ---------- Safety ----------

  // At most one live primary in every reachable state.
  lemma AtMostOnePrimary(b: seq<World>, i: nat, s: Id, t: Id)
    requires Behaviour(b) && i < |b| && LivePrimary(b[i], s) && LivePrimary(b[i], t)
    ensures s == t
  {
    BehaviourInv(b, i);
  }

  // Whoever promotes itself is the smallest live server at that moment.
  lemma WinnerIsTheSmallestAlive(b: seq<World>, i: nat, s: Id, t: Id)
    requires Behaviour(b) && i + 1 < |b| && Win(b[i], b[i + 1], s)
    requires t in b[i].servers && t != s && b[i].servers[t].up
    ensures Less(s, t)
  {
    BehaviourInv(b, i);
    WinnerIsBelowTheLiving(b[i], s, t);
  }

  // A process is promoted at most once, so although the sender's flag is never cleared, a
  // live primary always has a running sender.
  lemma PromotedOnceAndSending(b: seq<World>, i: nat, s: Id)
    requires Behaviour(b) && i < |b| && s in b[i].servers && b[i].servers[s].up
    ensures b[i].servers[s].promotions <= 1
    ensures b[i].servers[s].primary ==> b[i].servers[s].sender
  {
    BehaviourInv(b, i);
  }

  // ---------- Losing the role ----------

  // A live primary loses its role without crashing exactly when an announcement addressed
  // to it is still on its way.
  lemma DemotedIffAnnouncementPending(b: seq<World>, i: nat, s: Id)
    requires Behaviour(b) && i < |b| && LivePrimary(b[i], s)
    ensures (exists w' :: Step(b[i], w') && s in w'.servers && w'.servers[s].up && !w'.servers[s].primary)
      <==> exists from :: (from, s) in b[i].mail
  {
    BehaviourInv(b, i);
    var w := b[i];
    if from :| (from, s) in w.mail {
      var w' := World(w.servers[s := w.servers[s].(known := Some(from), primary := false)], w.mail - {(from, s)});
      assert from != s && Deliver(w, w', from, s);
      assert OtherStep(w, w') && Step(w, w');
    }
    if w' :| Step(w, w') && s in w'.servers && w'.servers[s].up && !w'.servers[s].primary {
      OnlyAnnouncementsDemote(w, w', s);
    }
  }

  lemma OnlyAnnouncementsDemote(w: World, w': World, s: Id)
    requires Inv(w) && LivePrimary(w, s) && Step(w, w') && s in w'.servers && w'.servers[s].up && !w'.servers[s].primary
    ensures exists from :: (from, s) in w.mail
  {
    hide DeadStayDead, PrimaryIsBelowElectors, OnePrimary, IsLeast, NoElection, NoLivePrimary;
  }

  // ---------- The server's own methods ----------

  class Node {
    const id: Id
    var primary: bool
    var known: Option<Id>
    var senderRunning: bool
    // Whether the goroutines of the monitor and the sender are alive.
    var monitor: bool
    var sender: bool
    ghost var promotions: nat

    ghost function State(): Server
      reads this
    {
      Server(true, primary, known, monitor, sender, senderRunning, promotions, None)
    }

    constructor (self: Id, asPrimary: bool)
      ensures id == self && State() == NewServer(self, asPrimary)
    {
      id, primary, known := self, asPrimary, if asPrimary then Some(self) else None;
      senderRunning, promotions := false, 0;
      sender, monitor := asPrimary, !asPrimary;
    }

    method SetKnownPrimary(addr: Id)
      modifies this
      ensures State() == Adopted(old(State()), id, addr)
      ensures known == Some(addr) && primary == (addr == id) && sender == old(sender) && monitor == old(monitor)
    {
      known := Some(addr);
      primary := addr == id;
    }

    method PromoteToPrimary()
      modifies this
      ensures State() == Promoted(old(State()), id).(monitor := old(monitor))
      ensures primary && known == Some(id) && senderRunning && sender == (old(sender) || !old(senderRunning))
    {
      primary := true;
      known := Some(id);
      promotions := promotions + 1;
      if !senderRunning {
        senderRunning := true;
        sender := true;
      }
    }

    // Who is told: the live peers, if this server won.
    method StartElection(peers: seq<Id>, alive: seq<bool>) returns (winner: Id, announceTo: seq<Id>)
      requires |alive| == |peers|
      modifies this
      ensures IsLeast(winner, {id} + Found(peers, alive))
      ensures winner == id ==> State() == Promoted(old(State()), id).(monitor := old(monitor))
      ensures winner != id ==> State() == Adopted(old(State()), id, winner)
      ensures known == Some(winner) && primary == (winner == id)
      ensures winner == id ==> Elements(announceTo) == Found(peers, alive)
      ensures winner != id ==> announceTo == []
    {
      var livePeers;
      winner, livePeers := RunElection(id, peers, alive);
      announceTo := [];
      if winner == id {
        PromoteToPrimary();
        announceTo := livePeers;
      } else {
        SetKnownPrimary(winner);
      }
    }

    // One iteration of the monitor: it ends on promotion, and otherwise elects when the
    // heartbeat is overdue.
    method MonitorTick(overdue: bool, peers: seq<Id>, alive: seq<bool>) returns (announceTo: seq<Id>)
      requires |alive| == |peers| && monitor
      modifies this
      ensures old(primary) ==> State() == old(State()).(monitor := false) && announceTo == []
      ensures !old(primary) && !overdue ==> State() == old(State()) && announceTo == []
      ensures !old(primary) && overdue && IsLeast(id, {id} + Found(peers, alive)) ==>
        State() == Promoted(old(State()), id) && Elements(announceTo) == Found(peers, alive)
      ensures !old(primary) && overdue && !IsLeast(id, {id} + Found(peers, alive)) ==>
        && announceTo == []
        && exists w :: IsLeast(w, {id} + Found(peers, alive)) && State() == Adopted(old(State()), id, w)
    {
      announceTo := [];
      if primary {
        monitor := false;
      } else if overdue {
        var winner;
        winner, announceTo := StartElection(peers, alive);
        if IsLeast(id, {id} + Found(peers, alive)) {
          LeastUnique(id, winner, {id} + Found(peers, alive));
        }
        if primary { monitor := false; }
      }
    }
  }
}
