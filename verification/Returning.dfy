/**
 When a cluster that has lost its primary gets one again: exactly when it can without a failure or
 a restart, exactly when it can with failures but no restart, and how an announcement that comes
 late strands it. The two conditions come first, then the lemmas they rest on, then a history of
 three servers.
 */
module Returning {
  import opened Sequences
  import opened Election

  ghost predicate LeastLive(w: World, s: Id)
  {
    s in w.servers && w.servers[s].up && forall t :: t in w.servers && w.servers[t].up ==> !Less(t, s)
  }

  // No server fails or comes back.
  ghost predicate CalmStep(w: World, w': World)
  {
    ElectionStep(w, w') || MessageStep(w, w')
  }

  ghost predicate CalmPath(p: seq<World>)
  {
    p != [] && forall i :: 0 <= i < |p| - 1 ==> CalmStep(p[i], p[i + 1])
  }

  ghost predicate Returns(p: seq<World>, w: World)
  {
    CalmPath(p) && p[0] == w && !NoLivePrimary(p[|p| - 1])
  }

  // In a reachable state without a primary, one can return without a crash or a restart exactly
  // when the least live server still monitors.
  lemma ReturnsIffLeastMonitors(b: seq<World>, i: nat)
    requires Behaviour(b) && i < |b| && NoLivePrimary(b[i])
    ensures (exists p :: Returns(p, b[i])) <==> exists s :: LeastLive(b[i], s) && b[i].servers[s].monitor
  {
    hide CalmStep, Less, Inv;
    BehaviourInv(b, i);
    var w := b[i];
    if s :| LeastLive(w, s) && w.servers[s].monitor {
      var p, t := LeastReturns(w, s);
      assert Returns(p, w);
    }
    if p :| Returns(p, w) {
      if s :| LeastLive(w, s) && !w.servers[s].monitor {
        StuckForGood(p, |p| - 1, s);
      } else {
        SomeoneLives(p, w);
      }
    }
  }

  // Servers may fail, but none comes back.
  ghost predicate FreeStep(w: World, w': World)
  {
    CalmStep(w, w') || exists s :: Crash(w, w', s)
  }

  ghost predicate FreePath(p: seq<World>)
  {
    p != [] && forall i :: 0 <= i < |p| - 1 ==> FreeStep(p[i], p[i + 1])
  }

  ghost predicate ReturnsFreely(p: seq<World>, w: World)
  {
    FreePath(p) && p[0] == w && !NoLivePrimary(p[|p| - 1])
  }

  // If servers may fail, one can return exactly when any live server still monitors; otherwise
  // the cluster has no primary until a restart.
  lemma ReturnsIffSomeoneMonitors(b: seq<World>, i: nat)
    requires Behaviour(b) && i < |b| && NoLivePrimary(b[i])
    ensures (exists p :: ReturnsFreely(p, b[i])) <==>
      exists s :: s in b[i].servers && b[i].servers[s].up && b[i].servers[s].monitor
  {
    hide FreeStep, Less, Inv;
    BehaviourInv(b, i);
    var w := b[i];
    if s :| s in w.servers && w.servers[s].up && w.servers[s].monitor {
      var p, t := ReturnsAfterCrashes(w, s, set x | x in w.servers && w.servers[x].up && Less(x, s));
      assert ReturnsFreely(p, w);
    } else {
      if p :| ReturnsFreely(p, w) {
        UnwatchedForGood(p, |p| - 1);
      }
    }
  }

  lemma JoinCalm(p: seq<World>, q: seq<World>) returns (r: seq<World>)
    requires CalmPath(p) && CalmPath(q) && p[|p| - 1] == q[0]
    ensures CalmPath(r) && r[0] == p[0] && r[|r| - 1] == q[|q| - 1]
  {
    hide CalmStep;
    r := p + q[1..];
    forall i | 0 <= i < |r| - 1
      ensures CalmStep(r[i], r[i + 1])
    {
      if i < |p| - 1 {
        assert r[i] == p[i] && r[i + 1] == p[i + 1];
      } else {
        assert r[i] == q[i - |p| + 1] && r[i + 1] == q[i - |p| + 1 + 1];
      }
    }
  }

  lemma {:induction false} LeastExists(s: set<Id>) returns (m: Id)
    requires s != {}
    ensures IsLeast(m, s)
  {
    var x :| x in s;
    if s == {x} {
      m := x;
      LessIrreflexive(x);
    } else {
      var l := LeastExists(s - {x});
      LeastOfMore(l, s - {x}, x);
      assert s - {x} + {x} == s;
      m := if Less(x, l) then x else l;
    }
  }

  function Remaining(w: World, s: Id): set<Id>
    requires Electing(w, s)
  {
    w.servers.Keys - w.servers[s].election.value.probed - {s}
  }

  lemma NoneRemaining(w: World, s: Id)
    requires Electing(w, s) && Remaining(w, s) == {}
    ensures AllProbed(w, s)
  {
    forall t | t in w.servers
      ensures t in w.servers[s].election.value.probed + {s}
    {
      assert t !in Remaining(w, s);
    }
  }

  // The election of s has gone on, has found only live peers, and nothing else has changed.
  ghost predicate Further(w: World, w': World, s: Id)
  {
    && Electing(w, s) && Electing(w', s)
    && w' == With(w, s, w.servers[s].(election := w'.servers[s].election))
    && forall t :: t in w'.servers[s].election.value.alive && t !in w.servers[s].election.value.alive ==>
         t in w.servers && t != s && w.servers[t].up
  }

  lemma FurtherTwice(w: World, w1: World, w2: World, s: Id)
    requires Further(w, w1, s) && Further(w1, w2, s)
    ensures Further(w, w2, s)
  {
  }

  lemma ProbeOne(w: World, s: Id, t: Id) returns (w': World)
    requires Electing(w, s) && t in Remaining(w, s)
    ensures CalmPath([w, w']) && Further(w, w', s) && Remaining(w', s) == Remaining(w, s) - {t}
  {
    var e := w.servers[s].election.value;
    var e' := Probing(e.probed + {t}, if w.servers[t].up then e.alive + {t} else e.alive);
    w' := With(w, s, w.servers[s].(election := Some(e')));
    assert Probe(w, w', s, t);
    assert ElectionStep(w, w');
  }

  // An election in progress probes its remaining peers.
  lemma {:induction false} ProbeAll(w: World, s: Id) returns (p: seq<World>)
    requires Electing(w, s)
    ensures CalmPath(p) && p[0] == w && AllProbed(p[|p| - 1], s) && Further(w, p[|p| - 1], s)
    decreases Remaining(w, s)
  {
    if t :| t in Remaining(w, s) {
      hide Remaining, CalmStep, AllProbed, Further;
      var w1 := ProbeOne(w, s, t);
      assert Electing(w1, s) by { FurtherElects(w, w1, s); }
      var q := ProbeAll(w1, s);
      FurtherTwice(w, w1, q[|q| - 1], s);
      p := JoinCalm([w, w1], q);
    } else {
      p := [w];
      NoneRemaining(w, s);
    }
  }

  lemma FurtherElects(w: World, w': World, s: Id)
    requires Further(w, w', s)
    ensures Electing(w', s)
  {
  }

  // The election ends, won or lost.
  lemma Decide(w: World, s: Id) returns (w': World)
    requires AllProbed(w, s)
    ensures CalmStep(w, w')
    ensures IsLeast(s, {s} + w.servers[s].election.value.alive) ==> LivePrimary(w', s)
    ensures !IsLeast(s, {s} + w.servers[s].election.value.alive) ==>
      exists t :: w' == With(w, s, Adopted(w.servers[s], s, t).(election := None)) && t != s
  {
    var all := {s} + w.servers[s].election.value.alive;
    if IsLeast(s, all) {
      w' := World(w.servers[s := Promoted(w.servers[s], s)],
                  w.mail + set p | p in w.servers[s].election.value.alive :: (s, p));
      assert Win(w, w', s);
    } else {
      assert s in all;
      var t := LeastExists(all);
      w' := With(w, s, Adopted(w.servers[s], s, t).(election := None));
      assert Lose(w, w', s, t);
    }
    assert ElectionStep(w, w');
  }

  // A fresh election of the least live server is won.
  lemma ElectLeast(w: World, s: Id) returns (p: seq<World>)
    requires NoLivePrimary(w) && LeastLive(w, s) && w.servers[s].monitor && w.servers[s].election == None
    ensures CalmPath(p) && p[0] == w && LivePrimary(p[|p| - 1], s)
  {
    hide CalmStep, Less;
    var w1 := With(w, s, w.servers[s].(election := Some(Probing({}, {}))));
    assert !LivePrimary(w, s);
    StartCalm(w, w1, s);
    var q := ProbeAll(w1, s);
    var w2 := q[|q| - 1];
    var alive := w2.servers[s].election.value.alive;
    LessIrreflexive(s);
    assert IsLeast(s, {s} + alive) by {
      assert forall t :: t in alive ==> t in w.servers && w.servers[t].up;
    }
    var w3 := Decide(w2, s);
    p := JoinCalm([w, w1], q);
    p := JoinCalm(p, [w2, w3]);
  }

  lemma StartCalm(w: World, w': World, s: Id)
    requires StartElection(w, w', s)
    ensures CalmStep(w, w')
  {
    assert ElectionStep(w, w');
  }

  // The least live server, if it still monitors, ends what election it is in and then becomes
  // primary.
  lemma LeastReturns(w: World, s: Id) returns (p: seq<World>, t: Id)
    requires NoLivePrimary(w) && LeastLive(w, s) && w.servers[s].monitor
    ensures CalmPath(p) && p[0] == w && LivePrimary(p[|p| - 1], t)
  {
    t := s;
    if w.servers[s].election == None {
      p := ElectLeast(w, s);
    } else {
      hide CalmStep, Less;
      p := ProbeAll(w, s);
      var w1 := p[|p| - 1];
      var w2 := Decide(w1, s);
      p := JoinCalm(p, [w1, w2]);
      if !LivePrimary(w2, s) {
        Unchanged(w, w2, s);
        var q := ElectLeast(w2, s);
        p := JoinCalm(p, q);
      }
    }
  }

  // A lost election changes no one's liveness.
  lemma Unchanged(w: World, w': World, s: Id)
    requires NoLivePrimary(w) && LeastLive(w, s) && w.servers[s].monitor
    requires exists t, v :: t != s && w' == With(w, s, Adopted(v, s, t).(election := None))
               && v.up && v.monitor
    ensures NoLivePrimary(w') && LeastLive(w', s) && w'.servers[s].monitor && w'.servers[s].election == None
  {
    forall t
      ensures !LivePrimary(w', t)
    {
      assert !LivePrimary(w, t);
    }
  }

  // Without its monitor the least live server stays a backup, and so does everyone above it.
  ghost predicate Stuck(w: World, s: Id)
  {
    Inv(w) && NoLivePrimary(w) && LeastLive(w, s) && !w.servers[s].monitor
  }

  lemma StuckStep(w: World, w': World, s: Id)
    requires Stuck(w, s) && CalmStep(w, w')
    ensures Stuck(w', s)
  {
    hide Inv, Less;
    CalmInv(w, w');
    if ElectionStep(w, w') {
      StuckElection(w, w', s);
    } else {
      StuckMessage(w, w', s);
    }
  }

  lemma CalmInv(w: World, w': World)
    requires Inv(w) && CalmStep(w, w')
    ensures Inv(w')
  {
    hide Inv, ElectionStep, MessageStep;
    StepInv(w, w');
  }

  lemma StuckElection(w: World, w': World, s: Id)
    requires Stuck(w, s) && ElectionStep(w, w')
    ensures NoLivePrimary(w') && LeastLive(w', s) && !w'.servers[s].monitor
  {
    if t :| Win(w, w', t) {
      assert ProcessInv(t, w.servers[t]);
      assert t != s;
      WinnerIsBelowTheLiving(w, t, s);
      assert false;
    } else {
      hide Win, Inv, Less, IsLeast;
      assert forall t :: LivePrimary(w', t) ==> LivePrimary(w, t);
    }
  }

  lemma StuckMessage(w: World, w': World, s: Id)
    requires Stuck(w, s) && MessageStep(w, w')
    ensures NoLivePrimary(w') && LeastLive(w', s) && !w'.servers[s].monitor
  {
    hide Less, DeadStayDead, PrimaryIsBelowElectors, OnePrimary, ProcessInv;
    assert forall t :: LivePrimary(w', t) ==> LivePrimary(w, t);
  }

  lemma {:induction false} StuckForGood(p: seq<World>, i: nat, s: Id)
    requires CalmPath(p) && Stuck(p[0], s) && i < |p|
    ensures Stuck(p[i], s)
  {
    hide CalmStep, Stuck;
    if i > 0 {
      StuckForGood(p, i - 1, s);
      StuckStep(p[i - 1], p[i - 1 + 1], s);
    }
  }

  // A primary can only return to a cluster in which someone is alive.
  lemma SomeoneLives(p: seq<World>, w: World)
    requires Returns(p, w)
    ensures exists s :: LeastLive(w, s)
  {
    hide CalmStep;
    var live := set s | s in w.servers && w.servers[s].up;
    if live == {} {
      assert forall s :: s in w.servers ==> s !in live;
      AllDown(p, |p| - 1);
    } else {
      var s := LeastExists(live);
      assert LeastLive(w, s);
    }
  }

  ghost predicate NobodyUp(w: World)
  {
    forall s :: s in w.servers ==> !w.servers[s].up
  }

  lemma {:induction false} AllDown(p: seq<World>, i: nat)
    requires CalmPath(p) && NobodyUp(p[0]) && i < |p|
    ensures NobodyUp(p[i])
  {
    hide CalmStep;
    if i > 0 {
      AllDown(p, i - 1);
      DownStays(p[i - 1], p[i - 1 + 1]);
    }
  }

  lemma DownStays(w: World, w': World)
    requires NobodyUp(w) && CalmStep(w, w')
    ensures NobodyUp(w')
  {
    hide Less, IsLeast;
  }

  lemma FreeInv(w: World, w': World)
    requires Inv(w) && FreeStep(w, w')
    ensures Inv(w')
  {
    hide Inv, ElectionStep, MessageStep, Crash;
    StepInv(w, w');
  }

  lemma CrashFirst(w: World, s: Id, q: seq<World>) returns (p: seq<World>)
    requires s in w.servers && w.servers[s].up && FreePath(q) && q[0] == With(w, s, DOWN_SERVER)
    ensures FreePath(p) && p[0] == w && p[|p| - 1] == q[|q| - 1]
  {
    assert Crash(w, q[0], s);
    assert FreeStep(w, q[0]);
    hide FreeStep;
    p := [w] + q;
    forall i | 0 <= i < |p| - 1
      ensures FreeStep(p[i], p[i + 1])
    {
      if i > 0 { assert p[i] == q[i - 1] && p[i + 1] == q[i - 1 + 1]; }
    }
  }

  lemma CalmIsFree(p: seq<World>)
    requires CalmPath(p)
    ensures FreePath(p)
  {
    hide CalmStep;
  }

  // After all live servers below it have failed, any server that monitors becomes primary.
  lemma {:induction false} ReturnsAfterCrashes(w: World, s: Id, below: set<Id>) returns (p: seq<World>, t: Id)
    requires NoLivePrimary(w) && s in w.servers && w.servers[s].up && w.servers[s].monitor
    requires below == set x | x in w.servers && w.servers[x].up && Less(x, s)
    ensures FreePath(p) && p[0] == w && LivePrimary(p[|p| - 1], t)
    decreases below
  {
    hide CalmStep, Less;
    LessIrreflexive(s);
    if x :| x in below {
      var w1 := With(w, x, DOWN_SERVER);
      assert forall t :: LivePrimary(w1, t) ==> LivePrimary(w, t);
      var q;
      q, t := ReturnsAfterCrashes(w1, s, below - {x});
      p := CrashFirst(w, x, q);
    } else {
      assert LeastLive(w, s) by {
        forall x | x in w.servers && w.servers[x].up
          ensures !Less(x, s)
        {
          assert x !in below;
        }
      }
      p, t := LeastReturns(w, s);
      CalmIsFree(p);
    }
  }

  // No live server monitors.
  ghost predicate Unwatched(w: World)
  {
    Inv(w) && NoLivePrimary(w) && forall s :: s in w.servers && w.servers[s].up ==> !w.servers[s].monitor
  }

  lemma UnwatchedStep(w: World, w': World)
    requires Unwatched(w) && FreeStep(w, w')
    ensures Unwatched(w')
  {
    FreeInv(w, w');
    hide Less, IsLeast, DeadStayDead, PrimaryIsBelowElectors, OnePrimary;
    assert forall t :: LivePrimary(w', t) ==> LivePrimary(w, t);
  }

  lemma {:induction false} UnwatchedForGood(p: seq<World>, i: nat)
    requires FreePath(p) && Unwatched(p[0]) && i < |p|
    ensures Unwatched(p[i])
  {
    hide FreeStep, Unwatched;
    if i > 0 {
      UnwatchedForGood(p, i - 1);
      UnwatchedStep(p[i - 1], p[i - 1 + 1]);
    }
  }

  // ---------- A primary lost to a late announcement ----------

  lemma Then(b: seq<World>, w: World) returns (c: seq<World>)
    requires b != [] && Behaviour(b) && Step(b[|b| - 1], w)
    ensures |c| == |b| + 1 && c[..|b|] == b && c[|b|] == w && Behaviour(c)
  {
    hide Step, Init;
    c := b + [w];
  }

  function Three(first: Server, second: Server, third: Server, mail: set<(Id, Id)>): World
  {
    World(map["1" := first, "2" := second, "3" := third], mail)
  }

  function ProbingServer(s: Id, probed: set<Id>, alive: set<Id>): Server
  {
    NewServer(s, false).(election := Some(Probing(probed, alive)))
  }

  lemma StartElectionStep(w: World, s: Id)
    requires s in w.servers && w.servers[s] == NewServer(s, false) && NoLivePrimary(w)
    ensures Step(w, With(w, s, ProbingServer(s, {}, {})))
  {
    var w' := With(w, s, ProbingServer(s, {}, {}));
    assert StartElection(w, w', s);
    assert ElectionStep(w, w');
  }

  lemma ProbeStep(w: World, s: Id, p: Id, probed: set<Id>, alive: set<Id>)
    requires s in w.servers && w.servers[s] == ProbingServer(s, probed, alive)
    requires p in w.servers && p != s && p !in probed
    ensures Step(w, With(w, s, ProbingServer(s, probed + {p}, if w.servers[p].up then alive + {p} else alive)))
  {
    var w' := With(w, s, ProbingServer(s, probed + {p}, if w.servers[p].up then alive + {p} else alive));
    assert Probe(w, w', s, p);
    assert ElectionStep(w, w');
  }

  lemma CrashStep(w: World, s: Id)
    requires s in w.servers && w.servers[s].up
    ensures Step(w, With(w, s, DOWN_SERVER))
  {
    var w' := With(w, s, DOWN_SERVER);
    assert Crash(w, w', s);
    assert OtherStep(w, w');
  }

  lemma WinStep(w: World, s: Id, w': World)
    requires Win(w, w', s)
    ensures Step(w, w')
  {
    assert ElectionStep(w, w');
  }

  function Winner(s: Id): Server
  {
    Promoted(NewServer(s, false), s)
  }

  lemma FirstWins(w: World) returns (w': World)
    requires w == Three(ProbingServer("1", {"2", "3"}, {"2", "3"}), NewServer("2", false), NewServer("3", false), {})
    ensures Step(w, w')
    ensures w' == Three(Winner("1"), NewServer("2", false), NewServer("3", false), {("1", "2"), ("1", "3")})
  {
    w' := Three(Winner("1"), NewServer("2", false), NewServer("3", false), {("1", "2"), ("1", "3")});
    assert IsLeast("1", {"1"} + {"2", "3"});
    assert w'.mail == w.mail + set p | p in {"2", "3"} :: ("1", p);
    assert Win(w, w', "1");
    WinStep(w, "1", w');
  }

  lemma ThreeBackups(w: World)
    requires w == Three(NewServer("1", false), NewServer("2", false), NewServer("3", false), {})
    ensures Behaviour([w])
  {
  }

  // Three backups: the first is elected.
  lemma FirstElected() returns (b: seq<World>)
    ensures b != [] && Behaviour(b)
    ensures b[|b| - 1] == Three(Winner("1"), NewServer("2", false), NewServer("3", false), {("1", "2"), ("1", "3")})
  {
    var backup2, backup3 := NewServer("2", false), NewServer("3", false);
    var w0 := Three(NewServer("1", false), backup2, backup3, {});
    b := [w0];
    hide Step, Behaviour, Init;
    ThreeBackups(w0);
    var w1 := Three(ProbingServer("1", {}, {}), backup2, backup3, {});
    var w2 := Three(ProbingServer("1", {"2"}, {"2"}), backup2, backup3, {});
    var w3 := Three(ProbingServer("1", {"2", "3"}, {"2", "3"}), backup2, backup3, {});
    StartElectionStep(w0, "1");
    assert With(w0, "1", ProbingServer("1", {}, {})) == w1;
    b := Then(b, w1);
    ProbeStep(w1, "1", "2", {}, {});
    assert {} + {"2"} == {"2"};
    assert With(w1, "1", ProbingServer("1", {"2"}, {"2"})) == w2;
    b := Then(b, w2);
    ProbeStep(w2, "1", "3", {"2"}, {"2"});
    assert {"2"} + {"3"} == {"2", "3"};
    assert With(w2, "1", ProbingServer("1", {"2", "3"}, {"2", "3"})) == w3;
    b := Then(b, w3);
    var w4 := FirstWins(w3);
    b := Then(b, w4);
  }

  lemma SecondWins(w: World) returns (w': World)
    requires w ==
      Three(DOWN_SERVER, ProbingServer("2", {"1", "3"}, {"3"}), NewServer("3", false), {("1", "2"), ("1", "3")})
    ensures Step(w, w')
    ensures w' == Three(DOWN_SERVER, Winner("2"), NewServer("3", false), {("1", "2"), ("1", "3"), ("2", "3")})
  {
    w' := Three(DOWN_SERVER, Winner("2"), NewServer("3", false), {("1", "2"), ("1", "3"), ("2", "3")});
    assert IsLeast("2", {"2"} + {"3"});
    assert w'.mail == w.mail + set p | p in {"3"} :: ("2", p);
    assert Win(w, w', "2");
    WinStep(w, "2", w');
  }

  // It dies with its announcements under way, and the second is elected.
  lemma SecondElected() returns (b: seq<World>)
    ensures b != [] && Behaviour(b)
    ensures b[|b| - 1] ==
      Three(DOWN_SERVER, Winner("2"), NewServer("3", false), {("1", "2"), ("1", "3"), ("2", "3")})
  {
    b := FirstElected();
    hide Step, Behaviour, Init;
    var backup2, backup3, mail := NewServer("2", false), NewServer("3", false), {("1", "2"), ("1", "3")};
    var w0 := b[|b| - 1];
    var w1 := Three(DOWN_SERVER, backup2, backup3, mail);
    var w2 := Three(DOWN_SERVER, ProbingServer("2", {}, {}), backup3, mail);
    var w3 := Three(DOWN_SERVER, ProbingServer("2", {"1"}, {}), backup3, mail);
    var w4 := Three(DOWN_SERVER, ProbingServer("2", {"1", "3"}, {"3"}), backup3, mail);
    CrashStep(w0, "1");
    assert With(w0, "1", DOWN_SERVER) == w1;
    b := Then(b, w1);
    StartElectionStep(w1, "2");
    assert With(w1, "2", ProbingServer("2", {}, {})) == w2;
    b := Then(b, w2);
    ProbeStep(w2, "2", "1", {}, {});
    assert {} + {"1"} == {"1"};
    assert With(w2, "2", ProbingServer("2", {"1"}, {})) == w3;
    b := Then(b, w3);
    ProbeStep(w3, "2", "3", {"1"}, {});
    assert {"1"} + {"3"} == {"1", "3"} && {} + {"3"} == {"3"};
    assert With(w3, "2", ProbingServer("2", {"1", "3"}, {"3"})) == w4;
    b := Then(b, w4);
    var w5 := SecondWins(w4);
    b := Then(b, w5);
  }

  lemma LateDelivery(w: World) returns (w': World)
    requires w == Three(DOWN_SERVER, Winner("2"), NewServer("3", false), {("1", "2"), ("1", "3"), ("2", "3")})
    ensures Step(w, w')
    ensures w' == Three(DOWN_SERVER, Adopted(Winner("2"), "2", "1"), NewServer("3", false), {("1", "3"), ("2", "3")})
  {
    w' := Three(DOWN_SERVER, Adopted(Winner("2"), "2", "1"), NewServer("3", false), {("1", "3"), ("2", "3")});
    assert w'.mail == w.mail - {("1", "2")};
    assert Deliver(w, w', "1", "2");
    assert MessageStep(w, w');
  }

  lemma StrandedFacts(w: World)
    requires w == Three(DOWN_SERVER, Adopted(Winner("2"), "2", "1"), NewServer("3", false), {("1", "3"), ("2", "3")})
    ensures NoLivePrimary(w) && LeastLive(w, "2") && !w.servers["2"].monitor
    ensures forall s :: LeastLive(w, s) ==> s == "2"
  {
    assert Less("2", "3");
    assert "2" in w.servers && w.servers["2"].up;
    LessIrreflexive("2");
    LessAsymmetric("2", "3");
  }

  // The first server's announcement reaches the second after its own election: it is a backup
  // of a dead primary and has no monitor left. Though the third still monitors, no primary
  // returns while both live; and if the third dies, none returns until a restart.
  lemma LateAnnouncementStrandsTheCluster() returns (b: seq<World>)
    ensures |b| > 2 && Behaviour(b) && LivePrimary(b[|b| - 3], "2")
    ensures var w := b[|b| - 2];
      && "2" in w.servers && w.servers["2"].up && "3" in w.servers && w.servers["3"].up && w.servers["3"].monitor
      && NoLivePrimary(w) && !exists p :: Returns(p, w)
    ensures var w := b[|b| - 1];
      "2" in w.servers && w.servers["2"].up && NoLivePrimary(w) && !exists p :: ReturnsFreely(p, w)
  {
    b := SecondElected();
    hide Step, Behaviour, Init, Returns, ReturnsFreely, Less;
    var w1 := LateDelivery(b[|b| - 1]);
    var c := Then(b, w1);
    assert c[|c| - 2] == b[|b| - 1];
    StrandedFacts(w1);
    ReturnsIffLeastMonitors(c, |c| - 1);
    var w2 := With(w1, "3", DOWN_SERVER);
    CrashStep(w1, "3");
    var d := Then(c, w2);
    assert forall s :: LivePrimary(w2, s) ==> LivePrimary(w1, s);
    ReturnsIffSomeoneMonitors(d, |d| - 1);
    b := d;
  }
}
