/**
 Whole-file caching: many clients work on one path of one primary. Every RPC is a step of
 its own, so that stores of other clients may fall between any two steps of an open.
 */
module ClientCache {
  import opened Sequences
  import opened Handler

  type ClientId = nat

  datatype Mode =
    | Idle
    | Asking(start: nat)              // opened on the server, about to validate the cached version
    | Fetching(start: nat, seen: nat, seenInc: nat)
      // about to fetch the file; seen is the version, and seenInc the incarnation, of the last
      // chunk that a broken attempt of this fetch received, or 0
    | Reading(start: nat, at: nat)    // open; the copy was the server's at instant `at`
    | Trusting                        // open on a validated copy that was tainted or outdated
    | Writing                         // open and written to
    | Flushing                        // closing: the store has not reached the server
    | Stored(version: nat, inc: nat, boot: nat)  // closing: stored, the reply is on its way
    | CreatePending(inc: nat, at: nat)  // created on the server, the reply is on its way
    | DeletePending                   // deleted on the server, the reply is on its way

  // cached: the version recorded for the local copy; inc: the incarnation that version is from;
  // tainted: the local copy was written to and has not been stored successfully since.
  datatype Client = Client(cached: Option<nat>, local: Bytes, inc: nat, tainted: bool, mode: Mode)

  // inc: the current incarnation of the path, which ends when versions start again at 1; boots:
  // how often the server was restarted; history: the content of each version of the current
  // incarnation; timeline: every state the path has been in on the server.
  datatype World = World(copy: Copy, inc: nat, boots: nat, history: map<nat, Bytes>, timeline: seq<Copy>,
                         clients: map<ClientId, Client>)

  const FRESH := Client(None, [], 0, false, Idle)

  ghost predicate Init(w: World)
  {
    && (forall c :: c in w.clients ==> w.clients[c] == FRESH)
    && w.timeline == [w.copy]
    && (w.copy.Missing? || (w.copy.version >= 1 && w.history == map[w.copy.version := w.copy.content]))
  }

  // ---------- Steps ----------

  function With(w: World, c: ClientId, s: Client): World
  {
    w.(clients := w.clients[c := s])
  }

  // The open RPC succeeds when the file exists; the cache decides what comes next.
  predicate OpenRpc(w: World, w': World, c: ClientId)
  {
    && c in w.clients && w.clients[c].mode == Idle && w.copy.Copy?
    && var s, start := w.clients[c], |w.timeline| - 1;
       start >= 0 && w' == With(w, c, s.(mode := if s.cached.Some? then Asking(start) else Fetching(start, 0, 0)))
  }

  // The server compares versions; on a match the local copy is opened without a fetch.
  predicate Validate(w: World, w': World, c: ClientId)
  {
    && c in w.clients && w.clients[c].mode.Asking? && w.clients[c].cached == Some(VersionOf(w.copy))
    && var s := w.clients[c];
       w' == With(w, c, s.(mode :=
         if !s.tainted && s.inc == w.inc && VersionOf(w.copy) > 0 && w.timeline != []
         then Reading(s.mode.start, |w.timeline| - 1) else Trusting))
  }

  // Versions differ, or the RPC fails.
  predicate Reject(w: World, w': World, c: ClientId)
  {
    && c in w.clients && w.clients[c].mode.Asking?
    && w' == With(w, c, w.clients[c].(mode := Fetching(w.clients[c].mode.start, 0, 0)))
  }

  // An attempt to fetch breaks off after its first chunk: the version on it is remembered.
  predicate BrokenFetch(w: World, w': World, c: ClientId)
  {
    && c in w.clients && w.clients[c].mode.Fetching? && w.copy.Copy? && w.copy.content != []
    && w' == With(w, c, w.clients[c].(mode := Fetching(w.clients[c].mode.start, w.copy.version, w.inc)))
  }

  // The whole file arrives with its version. An empty file arrives without one: then the
  // version of an earlier attempt is recorded, or 0.
  predicate Fetch(w: World, w': World, c: ClientId)
  {
    && c in w.clients && w.clients[c].mode.Fetching? && w.copy.Copy? && w.timeline != []
    && var m := w.clients[c].mode;
       var version := if w.copy.content == [] then m.seen else w.copy.version;
       var inc := if w.copy.content == [] && m.seen > 0 then m.seenInc else w.inc;
       w' == With(w, c, Client(Some(version), w.copy.content, inc, false, Reading(m.start, |w.timeline| - 1)))
  }

  predicate OpenFails(w: World, w': World, c: ClientId)
  {
    && c in w.clients && w.clients[c].mode.Fetching?
    && w' == With(w, c, w.clients[c].(mode := Idle))
  }

  predicate Write(w: World, w': World, c: ClientId, data: Bytes)
  {
    && c in w.clients && (w.clients[c].mode.Reading? || w.clients[c].mode.Trusting? || w.clients[c].mode.Writing?)
    && w' == With(w, c, w.clients[c].(local := data, tainted := true, mode := Writing))
  }

  predicate Close(w: World, w': World, c: ClientId)
  {
    && c in w.clients && (w.clients[c].mode.Reading? || w.clients[c].mode.Trusting? || w.clients[c].mode.Writing?)
    && w' == With(w, c, w.clients[c].(mode := if w.clients[c].mode.Writing? then Flushing else Idle))
  }

  predicate StoreRpc(w: World, w': World, c: ClientId)
  {
    && c in w.clients && w.clients[c].mode == Flushing && w.clients[c].local != []
    && var s, v := w.clients[c], VersionOf(w.copy) + 1;
       // A store to a deleted path starts a new incarnation at version 1, as a create does.
       var inc := if w.copy.Missing? then w.inc + 1 else w.inc;
       var copy := Copy(s.local, v);
       w' == With(w, c, s.(mode := Stored(v, inc, w.boots)))
             .(copy := copy, inc := inc, timeline := w.timeline + [copy],
               history := if w.copy.Missing? then map[v := s.local] else w.history[v := s.local])
  }

  predicate StoreAnswered(w: World, w': World, c: ClientId)
  {
    && c in w.clients && w.clients[c].mode.Stored?
    && var s := w.clients[c];
       w' == With(w, c, s.(mode := Idle, tainted := false, inc := s.mode.inc,
                           cached := if s.cached.Some? then Some(s.mode.version) else None))
  }

  // The server was restarted and has lost its table of replies: the store is sent again.
  predicate Resend(w: World, w': World, c: ClientId)
  {
    && c in w.clients && w.clients[c].mode.Stored? && w.clients[c].mode.boot < w.boots
    && w' == With(w, c, w.clients[c].(mode := Flushing))
  }

  // Every attempt to store failed, or the client gave up waiting for the reply.
  predicate CloseFails(w: World, w': World, c: ClientId)
  {
    && c in w.clients && (w.clients[c].mode == Flushing || w.clients[c].mode.Stored?)
    && w' == With(w, c, w.clients[c].(mode := Idle))
  }

  predicate CreateRpc(w: World, w': World, c: ClientId)
  {
    && c in w.clients && w.clients[c].mode == Idle && w.copy.Missing?
    && var copy := Copy([], 1);
       w' == With(w, c, w.clients[c].(mode := CreatePending(w.inc + 1, |w.timeline|)))
             .(copy := copy, inc := w.inc + 1, history := map[1 := []], timeline := w.timeline + [copy])
  }

  predicate CreateAnswered(w: World, w': World, c: ClientId)
  {
    && c in w.clients && w.clients[c].mode.CreatePending?
    && w' == With(w, c, Client(Some(1), [], w.clients[c].mode.inc, false,
                               Reading(w.clients[c].mode.at, w.clients[c].mode.at)))
  }

  predicate DeleteRpc(w: World, w': World, c: ClientId)
  {
    && c in w.clients && w.clients[c].mode == Idle
    && w' == With(w, c, w.clients[c].(mode := DeletePending)).(copy := Missing, timeline := w.timeline + [Missing])
  }

  predicate DeleteAnswered(w: World, w': World, c: ClientId)
  {
    && c in w.clients && w.clients[c].mode == DeletePending
    && w' == With(w, c, FRESH)
  }

  // The client gives up waiting for the reply to a create or a delete.
  predicate CallFails(w: World, w': World, c: ClientId)
  {
    && c in w.clients && (w.clients[c].mode.CreatePending? || w.clients[c].mode == DeletePending)
    && w' == With(w, c, w.clients[c].(mode := Idle))
  }

  // The server restarts: it finds the file on disk and gives it version 1.
  predicate Restart(w: World, w': World)
  {
    && w.copy.Copy?
    && var copy := Copy(w.copy.content, 1);
       w' == w.(copy := copy, inc := w.inc + 1, boots := w.boots + 1, history := map[1 := copy.content],
                timeline := w.timeline + [copy])
  }

  ghost predicate OpenStep(w: World, w': World, c: ClientId)
  {
    || OpenRpc(w, w', c) || Validate(w, w', c) || Reject(w, w', c)
    || BrokenFetch(w, w', c) || Fetch(w, w', c) || OpenFails(w, w', c)
  }

  ghost predicate LocalStep(w: World, w': World, c: ClientId)
  {
    || (exists data :: Write(w, w', c, data))
    || Close(w, w', c) || StoreAnswered(w, w', c) || Resend(w, w', c) || CloseFails(w, w', c)
    || CreateAnswered(w, w', c) || DeleteAnswered(w, w', c) || CallFails(w, w', c)
  }

  ghost predicate MutationStep(w: World, w': World, c: ClientId)
  {
    StoreRpc(w, w', c) || CreateRpc(w, w', c) || DeleteRpc(w, w', c)
  }

  ghost predicate Step(w: World, w': World)
  {
    Restart(w, w') || exists c :: OpenStep(w, w', c) || LocalStep(w, w', c) || MutationStep(w, w', c)
  }

  ghost predicate Behaviour(b: seq<World>)
  {
    b != [] && Init(b[0]) && forall i :: 0 <= i < |b| - 1 ==> Step(b[i], b[i + 1])
  }

  // ---------- The invariant ----------

  ghost predicate ServerInv(w: World)
  {
    && w.timeline != [] && w.timeline[|w.timeline| - 1] == w.copy
    && (w.copy.Copy? ==>
          && w.copy.version >= 1 && w.copy.version in w.history && w.history[w.copy.version] == w.copy.content
          && forall v :: v in w.history ==> v <= w.copy.version)
  }

  // A clean copy of the current incarnation is the content of its version; so is a copy
  // whose store is under way, at the version it was given.
  ghost predicate ClientInv(w: World, s: Client)
  {
    && s.inc <= w.inc
    && (!s.tainted && s.cached.Some? && s.cached.value > 0 && s.inc == w.inc ==>
          s.cached.value in w.history && w.history[s.cached.value] == s.local)
    && (s.mode.Stored? ==>
          && s.mode.inc <= w.inc
          && (s.mode.inc == w.inc ==> s.mode.version in w.history && w.history[s.mode.version] == s.local))
    && (s.mode.Fetching? ==>
          && s.mode.seenInc <= w.inc
          && (s.mode.seen > 0 && s.mode.seenInc == w.inc && w.copy.Copy? ==> w.copy.content != []))
    && (s.mode.CreatePending? ==>
          && s.mode.inc <= w.inc
          && (s.mode.inc == w.inc ==> 1 in w.history && w.history[1] == []))
    && ReadingInv(w, s)
  }

  ghost predicate ReadingInv(w: World, s: Client)
  {
    && (s.mode.Asking? ==> s.mode.start < |w.timeline|)
    && (s.mode.Fetching? ==> s.mode.start < |w.timeline|)
    && (s.mode.CreatePending? ==> s.mode.at < |w.timeline| && w.timeline[s.mode.at] == Copy([], 1))
    && (s.mode.Reading? ==>
          && s.mode.start <= s.mode.at < |w.timeline|
          && w.timeline[s.mode.at].Copy? && w.timeline[s.mode.at].content == s.local)
  }

  ghost predicate Inv(w: World)
  {
    ServerInv(w) && forall c :: c in w.clients ==> ClientInv(w, w.clients[c])
  }

  // Steps that leave the server alone.
  lemma OpenInv(w: World, w': World, c: ClientId)
    requires Inv(w) && OpenStep(w, w', c)
    ensures Inv(w')
  {
    assert ClientInv(w, w.clients[c]);
    assert ClientInv(w', w'.clients[c]);
    OthersUnaffected(w, w', c);
  }

  lemma OthersUnaffected(w: World, w': World, c: ClientId)
    requires Inv(w) && c in w.clients && c in w'.clients
    requires w' == With(w, c, w'.clients[c]) && ClientInv(w', w'.clients[c])
    ensures Inv(w')
  {
    forall d | d in w'.clients
      ensures ClientInv(w', w'.clients[d])
    {
      if d != c { assert ClientInv(w, w.clients[d]); }
    }
  }

  lemma LocalInv(w: World, w': World, c: ClientId)
    requires Inv(w) && LocalStep(w, w', c)
    ensures Inv(w')
  {
    assert ClientInv(w, w.clients[c]);
    assert ClientInv(w', w'.clients[c]);
    OthersUnaffected(w, w', c);
  }

  // A mutation extends the timeline; within an incarnation it extends the history, and
  // leaves no empty file.
  ghost predicate Extends(w: World, w': World)
  {
    && w.timeline <= w'.timeline && w.inc <= w'.inc
    && (w'.inc == w.inc ==>
          && (w'.copy.Copy? ==> w'.copy.content != [])
          && forall v :: v in w.history ==> v in w'.history && w'.history[v] == w.history[v])
  }

  lemma ExtendsKeepsClient(w: World, w': World, s: Client)
    requires Extends(w, w') && ClientInv(w, s)
    ensures ClientInv(w', s)
  {
  }

  lemma MutationExtends(w: World, w': World, c: ClientId)
    requires Inv(w) && MutationStep(w, w', c)
    ensures Extends(w, w') && ServerInv(w') && c in w'.clients && w'.clients == w.clients[c := w'.clients[c]]
  {
    hide ClientInv;
  }

  lemma MutatorInv(w: World, w': World, c: ClientId)
    requires Inv(w) && MutationStep(w, w', c)
    ensures ClientInv(w', w'.clients[c])
  {
    MutationExtends(w, w', c);
    ExtendsKeepsClient(w, w', w.clients[c]);
  }

  lemma MutationInv(w: World, w': World, c: ClientId)
    requires Inv(w) && MutationStep(w, w', c)
    ensures Inv(w')
  {
    hide MutationStep, ClientInv, ServerInv, Extends;
    MutationExtends(w, w', c);
    MutatorInv(w, w', c);
    forall d | d in w'.clients
      ensures ClientInv(w', w'.clients[d])
    {
      if d != c { ExtendsKeepsClient(w, w', w.clients[d]); }
    }
  }

  lemma RestartInv(w: World, w': World)
    requires Inv(w) && Restart(w, w')
    ensures Inv(w')
  {
    hide ClientInv;
    forall c | c in w'.clients
      ensures ClientInv(w', w'.clients[c])
    {
      ExtendsKeepsClient(w, w', w.clients[c]);
    }
  }

  lemma {:induction false} BehaviourInv(b: seq<World>, i: nat)
    requires Behaviour(b) && i < |b|
    ensures Inv(b[i])
  {
    if i == 0 {
    } else {
      hide OpenStep, LocalStep, MutationStep, Inv, Restart;
      BehaviourInv(b, i - 1);
      var w, w' := b[i - 1], b[i - 1 + 1];
      if Restart(w, w') {
        RestartInv(w, w');
      } else {
        var c :| OpenStep(w, w', c) || LocalStep(w, w', c) || MutationStep(w, w', c);
        if OpenStep(w, w', c) {
          OpenInv(w, w', c);
        } else if LocalStep(w, w', c) {
          LocalInv(w, w', c);
        } else {
          MutationInv(w, w', c);
        }
      }
    }
  }

  // ---------- Cache coherence ----------

  // In every reachable state a clean cached copy of the current incarnation is the content
  // the server held at that version.
  lemma CleanCopyIsItsVersion(b: seq<World>, i: nat, c: ClientId)
    requires Behaviour(b) && i < |b| && c in b[i].clients
    requires var s := b[i].clients[c]; !s.tainted && s.cached.Some? && s.cached.value > 0 && s.inc == b[i].inc
    ensures var s := b[i].clients[c]; s.cached.value in b[i].history && b[i].history[s.cached.value] == s.local
  {
    BehaviourInv(b, i);
    assert ClientInv(b[i], b[i].clients[c]);
  }

  // An open that skips the fetch opens exactly what the server holds at that instant,
  // unless the copy is tainted, of an older incarnation, or of an empty file.
  lemma ValidatedCopyIsCurrent(b: seq<World>, i: nat, c: ClientId)
    requires Behaviour(b) && i + 1 < |b| && Validate(b[i], b[i + 1], c)
    requires var s := b[i].clients[c]; !s.tainted && s.inc == b[i].inc && s.cached.value > 0
    ensures b[i].copy == Copy(b[i + 1].clients[c].local, b[i].clients[c].cached.value)
  {
    hide Step;
    BehaviourInv(b, i);
    assert ClientInv(b[i], b[i].clients[c]);
  }

  // Whoever has the file open and unwritten, having fetched or validated a clean copy, has
  // the content that the server held at some instant since that open began.
  lemma OpenCopyWasServed(b: seq<World>, i: nat, c: ClientId)
    requires Behaviour(b) && i < |b| && c in b[i].clients && b[i].clients[c].mode.Reading?
    ensures var s := b[i].clients[c];
      exists k :: s.mode.start <= k < |b[i].timeline| && b[i].timeline[k].Copy? && b[i].timeline[k].content == s.local
  {
    BehaviourInv(b, i);
    assert ClientInv(b[i], b[i].clients[c]);
  }

  // ---------- The steps are what the handlers do ----------

  // A server whose copy of the path is the machine's has, after the handler, the machine's next
  // copy, and a store is answered with the version the machine gives it.
  lemma MutationsAreTheHandlers(w: World, w': World, c: ClientId, s: Server, path: string, id: string, q: int)
    requires MutationStep(w, w', c) && s.primary && DedupKey(id, q) !in s.dedup && CopyOf(s, path) == w.copy
    requires Consistent(s)
    ensures StoreRpc(w, w', c) ==>
      var r := StoreReq(StoreFrames(path, id, q, Pieces(w.clients[c].local, CHUNK_SIZE)), true);
      && CopyOf(Handle(s, r).0, path) == w'.copy && w'.clients[c].mode.Stored?
      && Handle(s, r).1 == Replied(StoreReply(w'.clients[c].mode.version, ""))
    ensures CreateRpc(w, w', c) ==>
      && CopyOf(Handle(s, CreateReq(path, id, q)).0, path) == w'.copy
      && Handle(s, CreateReq(path, id, q)).1.Replied? && Handle(s, CreateReq(path, id, q)).1.reply.error == ""
    ensures DeleteRpc(w, w', c) ==>
      && CopyOf(Handle(s, DeleteReq(path, id, q)).0, path) == w'.copy
      && Handle(s, DeleteReq(path, id, q)).1 == Replied(DeleteReply(""))
  {
    if StoreRpc(w, w', c) {
      hide StoreFrames, Pieces, DedupKey, Handle;
      StoreDelivers(s, path, id, q, w.clients[c].local);
    } else {
      hide DedupKey;
    }
  }

  // Questions and fetches are answered from that copy, and a restarted server has the machine's
  // copy after a restart.
  lemma AnswersAreTheHandlers(w: World, w': World, c: ClientId, s: Server, path: string)
    requires CopyOf(s, path) == w.copy && path !in s.inputs
    ensures Validate(w, w', c) ==> w.clients[c].cached == Some(Version(s, path))
    ensures Fetch(w, w', c) ==>
      && path in s.files && w'.clients[c].local == s.files[path]
      && (s.files[path] != [] ==> w'.clients[c].cached == Some(Version(s, path)))
    ensures Restart(w, w') ==>
      CopyOf(s.(versions := map p | p in s.files :: 1, dedup := map[]), path) == w'.copy
  {
  }

  // ---------- Coherence over the history ----------

  // The path is deleted or the server restarted.
  ghost predicate Resets(w: World, w': World)
  {
    Restart(w, w') || exists c :: DeleteRpc(w, w', c)
  }

  // Until then the path has one incarnation, and all recorded versions are from it.
  ghost predicate OneIncarnation(w: World)
  {
    forall c :: c in w.clients ==> OfThisIncarnation(w, w.clients[c])
  }

  ghost predicate OfThisIncarnation(w: World, s: Client)
  {
    && (w.copy.Missing? ==> s.cached == None && s.mode == Idle)
    && (s.cached.Some? ==> s.inc == w.inc)
    && (s.mode.Stored? ==> s.mode.inc == w.inc)
    && (s.mode.CreatePending? ==> s.mode.inc == w.inc)
    && (s.mode.Fetching? && s.mode.seen > 0 ==> s.mode.seenInc == w.inc)
  }

  lemma OneIncarnationStep(w: World, w': World)
    requires OneIncarnation(w) && Step(w, w') && !Resets(w, w')
    ensures OneIncarnation(w')
  {
    var c :| OpenStep(w, w', c) || LocalStep(w, w', c) || MutationStep(w, w', c);
    OneIncarnationMover(w, w', c);
    OneIncarnationOthers(w, w', c);
  }

  lemma OneIncarnationMover(w: World, w': World, c: ClientId)
    requires OneIncarnation(w) && !Resets(w, w')
    requires OpenStep(w, w', c) || LocalStep(w, w', c) || MutationStep(w, w', c)
    ensures c in w.clients && c in w'.clients && OfThisIncarnation(w', w'.clients[c])
  {
    hide OpenStep, LocalStep, MutationStep, OfThisIncarnation, DeleteRpc, Restart;
    assert !DeleteRpc(w, w', c);
    if OpenStep(w, w', c) {
      MoverOpens(w, w', c);
    } else if LocalStep(w, w', c) {
      MoverActs(w, w', c);
    } else {
      MoverMutates(w, w', c);
    }
  }

  lemma MoverOpens(w: World, w': World, c: ClientId)
    requires OneIncarnation(w) && OpenStep(w, w', c)
    ensures c in w.clients && c in w'.clients && OfThisIncarnation(w', w'.clients[c])
  {
    assert OfThisIncarnation(w, w.clients[c]);
  }

  lemma MoverActs(w: World, w': World, c: ClientId)
    requires OneIncarnation(w) && LocalStep(w, w', c)
    ensures c in w.clients && c in w'.clients && OfThisIncarnation(w', w'.clients[c])
  {
    assert OfThisIncarnation(w, w.clients[c]);
  }

  lemma MoverMutates(w: World, w': World, c: ClientId)
    requires OneIncarnation(w) && MutationStep(w, w', c) && !DeleteRpc(w, w', c)
    ensures c in w.clients && c in w'.clients && OfThisIncarnation(w', w'.clients[c])
  {
    assert OfThisIncarnation(w, w.clients[c]);
  }

  lemma OneIncarnationOthers(w: World, w': World, c: ClientId)
    requires OneIncarnation(w) && !Resets(w, w') && c in w'.clients && OfThisIncarnation(w', w'.clients[c])
    requires OpenStep(w, w', c) || LocalStep(w, w', c) || MutationStep(w, w', c)
    ensures OneIncarnation(w')
  {
    assert OfThisIncarnation(w, w.clients[c]);
    assert w'.clients == w.clients[c := w'.clients[c]];
    forall d | d in w'.clients
      ensures OfThisIncarnation(w', w'.clients[d])
    {
      if d != c { assert OfThisIncarnation(w, w.clients[d]); }
    }
  }

  // A client none of whose closes failed has unsaved bytes only while it writes or closes.
  ghost predicate TaintedWhileWriting(w: World, c: ClientId)
  {
    c in w.clients && w.clients[c].tainted ==>
      var m := w.clients[c].mode;
      m == Writing || m == Flushing || m.Stored?
  }

  lemma TaintStep(w: World, w': World, c: ClientId)
    requires TaintedWhileWriting(w, c) && Step(w, w') && !CloseFails(w, w', c)
    ensures TaintedWhileWriting(w', c)
  {
    hide OpenStep, LocalStep, MutationStep, CloseFails;
    if !Restart(w, w') {
      var d :| OpenStep(w, w', d) || LocalStep(w, w', d) || MutationStep(w, w', d);
      if d != c {
        OnlyTheMoverChanges(w, w', c, d);
      } else {
        TaintMover(w, w', c);
      }
    }
  }

  lemma TaintMover(w: World, w': World, c: ClientId)
    requires TaintedWhileWriting(w, c) && !CloseFails(w, w', c)
    requires OpenStep(w, w', c) || LocalStep(w, w', c) || MutationStep(w, w', c)
    ensures TaintedWhileWriting(w', c)
  {
  }

  lemma OnlyTheMoverChanges(w: World, w': World, c: ClientId, d: ClientId)
    requires c != d && (OpenStep(w, w', d) || LocalStep(w, w', d) || MutationStep(w, w', d))
    ensures c in w'.clients ==> c in w.clients && w'.clients[c] == w.clients[c]
  {
  }

  lemma {:induction false} CleanHistory(b: seq<World>, i: nat, c: ClientId)
    requires Behaviour(b) && i < |b|
    requires forall k :: 0 <= k < i ==> !Resets(b[k], b[k + 1]) && !CloseFails(b[k], b[k + 1], c)
    ensures OneIncarnation(b[i]) && TaintedWhileWriting(b[i], c)
  {
    if i == 0 {
    } else {
      hide Step, Resets, CloseFails, OneIncarnation, TaintedWhileWriting;
      CleanHistory(b, i - 1, c);
      assert Step(b[i - 1], b[i - 1 + 1]);
      OneIncarnationStep(b[i - 1], b[i - 1 + 1]);
      TaintStep(b[i - 1], b[i - 1 + 1], c);
    }
  }

  // If nobody has deleted the path, the server has not been restarted and no close of this
  // client has failed, every copy that the server confirms at a positive version is what the
  // server holds at that instant.
  lemma ConfirmedCopyIsCurrent(b: seq<World>, i: nat, c: ClientId)
    requires Behaviour(b) && i + 1 < |b| && Validate(b[i], b[i + 1], c) && b[i].clients[c].cached.value > 0
    requires forall k :: 0 <= k < i ==> !Resets(b[k], b[k + 1]) && !CloseFails(b[k], b[k + 1], c)
    ensures b[i].copy == Copy(b[i + 1].clients[c].local, b[i].clients[c].cached.value)
    ensures b[i + 1].clients[c].mode.Reading?
  {
    hide Step, Resets, CloseFails;
    CleanHistory(b, i, c);
    BehaviourInv(b, i);
    assert OfThisIncarnation(b[i], b[i].clients[c]);
    ValidatedCopyIsCurrent(b, i, c);
  }

  // A fetch records a positive version of an older incarnation exactly when it finds the file
  // empty after an earlier attempt of the same fetch had received a chunk.
  lemma FetchRecordsStaleVersion(b: seq<World>, i: nat, c: ClientId)
    requires Behaviour(b) && i + 1 < |b| && Fetch(b[i], b[i + 1], c)
    ensures var s := b[i + 1].clients[c];
      s.cached.value > 0 && s.inc < b[i].inc <==> b[i].copy.content == [] && b[i].clients[c].mode.seen > 0
  {
    hide Step;
    BehaviourInv(b, i);
    assert ClientInv(b[i], b[i].clients[c]);
  }

  // ---------- Where coherence ends ----------

  // One more step of a history.
  lemma Then(b: seq<World>, w: World, c: ClientId)
    requires Behaviour(b)
    requires var last := b[|b| - 1]; OpenStep(last, w, c) || LocalStep(last, w, c) || MutationStep(last, w, c)
    ensures Behaviour(b + [w])
  {
    hide OpenStep, LocalStep, MutationStep, Init;
    var b' := b + [w];
    assert Step(b[|b| - 1], w);
    forall i | 0 <= i < |b'| - 1
      ensures Step(b'[i], b'[i + 1])
    {
      if i < |b| - 1 { assert b'[i] == b[i] && b'[i + 1] == b[i + 1]; }
    }
  }

  // A client without a cached copy opens the file and fetches it.
  lemma OpenAndFetch(b: seq<World>, c: ClientId) returns (b': seq<World>)
    requires b != [] && Behaviour(b) && c in b[|b| - 1].clients && b[|b| - 1].clients[c] == FRESH
    requires b[|b| - 1].copy.Copy? && b[|b| - 1].copy.content != [] && b[|b| - 1].timeline != []
    ensures b' != [] && Behaviour(b')
    ensures var w, k := b[|b| - 1], |b[|b| - 1].timeline| - 1;
      b'[|b'| - 1] == With(w, c, Client(Some(w.copy.version), w.copy.content, w.inc, false, Reading(k, k)))
  {
    hide Behaviour;
    var w, k := b[|b| - 1], |b[|b| - 1].timeline| - 1;
    var w1 := With(w, c, FRESH.(mode := Fetching(k, 0, 0)));
    var w2 := With(w1, c, Client(Some(w.copy.version), w.copy.content, w.inc, false, Reading(k, k)));
    assert OpenRpc(w, w1, c);
    Then(b, w1, c);
    assert Fetch(w1, w2, c);
    Then(b + [w1], w2, c);
    b' := b + [w1] + [w2];
    assert w2 == With(w, c, w2.clients[c]);
  }

  // A client opens the file and closes it again: it keeps a clean copy.
  lemma CacheAndClose(b: seq<World>, c: ClientId) returns (b': seq<World>)
    requires b != [] && Behaviour(b) && c in b[|b| - 1].clients && b[|b| - 1].clients[c] == FRESH
    requires b[|b| - 1].copy.Copy? && b[|b| - 1].copy.content != [] && b[|b| - 1].timeline != []
    ensures b' != [] && Behaviour(b')
    ensures var w := b[|b| - 1];
      b'[|b'| - 1] == With(w, c, Client(Some(w.copy.version), w.copy.content, w.inc, false, Idle))
  {
    hide Behaviour;
    b' := OpenAndFetch(b, c);
    var w1 := b'[|b'| - 1];
    var w2 := With(w1, c, w1.clients[c].(mode := Idle));
    assert Close(w1, w2, c);
    Then(b', w2, c);
    b' := b' + [w2];
    assert w2 == With(b[|b| - 1], c, w2.clients[c]);
  }

  // A client deletes the file and creates it again: it is empty, at version 1.
  lemma DeleteAndCreate(b: seq<World>, c: ClientId) returns (b': seq<World>)
    requires b != [] && Behaviour(b) && c in b[|b| - 1].clients && b[|b| - 1].clients[c] == FRESH
    ensures b' != [] && Behaviour(b')
    ensures var w, k := b[|b| - 1], |b[|b| - 1].timeline| + 1;
      b'[|b'| - 1] == With(w, c, Client(Some(1), [], w.inc + 1, false, Reading(k, k)))
        .(copy := Copy([], 1), inc := w.inc + 1, history := map[1 := []],
          timeline := w.timeline + [Missing] + [Copy([], 1)])
  {
    hide Behaviour;
    var w, k := b[|b| - 1], |b[|b| - 1].timeline| + 1;
    var w1 := With(w, c, FRESH.(mode := DeletePending)).(copy := Missing, timeline := w.timeline + [Missing]);
    var w2 := With(w1, c, FRESH);
    var w3 := With(w2, c, FRESH.(mode := CreatePending(w.inc + 1, k)))
              .(copy := Copy([], 1), inc := w.inc + 1, history := map[1 := []],
                timeline := w1.timeline + [Copy([], 1)]);
    var w4 := With(w3, c, Client(Some(1), [], w.inc + 1, false, Reading(k, k)));
    assert DeleteRpc(w, w1, c);
    Then(b, w1, c);
    assert DeleteAnswered(w1, w2, c);
    Then(b + [w1], w2, c);
    assert CreateRpc(w2, w3, c);
    Then(b + [w1] + [w2], w3, c);
    assert CreateAnswered(w3, w4, c);
    Then(b + [w1] + [w2] + [w3], w4, c);
    b' := b + [w1] + [w2] + [w3] + [w4];
    assert w4.clients == w.clients[c := w4.clients[c]];
  }

  // A client that has the file open writes y and its store reaches the server.
  lemma WriteAndStore(b: seq<World>, c: ClientId, y: Bytes) returns (b': seq<World>)
    requires b != [] && Behaviour(b) && c in b[|b| - 1].clients && b[|b| - 1].clients[c].mode.Reading?
    requires b[|b| - 1].copy.Copy? && y != []
    ensures b' != [] && Behaviour(b')
    ensures var w := b[|b| - 1];
      var v := w.copy.version + 1;
      b'[|b'| - 1] == With(w, c, w.clients[c].(local := y, tainted := true, mode := Stored(v, w.inc, w.boots)))
        .(copy := Copy(y, v), history := w.history[v := y], timeline := w.timeline + [Copy(y, v)])
  {
    hide Behaviour;
    var w, v := b[|b| - 1], b[|b| - 1].copy.version + 1;
    var s := w.clients[c].(local := y, tainted := true);
    var w1 := With(w, c, s.(mode := Writing));
    var w2 := With(w1, c, s.(mode := Flushing));
    var w3 := With(w2, c, s.(mode := Stored(v, w.inc, w.boots)))
              .(copy := Copy(y, v), history := w.history[v := y], timeline := w.timeline + [Copy(y, v)]);
    assert Write(w, w1, c, y);
    Then(b, w1, c);
    assert Close(w1, w2, c);
    Then(b + [w1], w2, c);
    assert StoreRpc(w2, w3, c);
    Then(b + [w1] + [w2], w3, c);
    b' := b + [w1] + [w2] + [w3];
    assert w3.clients == w.clients[c := w3.clients[c]];
  }

  // An idle client opens its copy without a fetch although it should not.
  lemma ReopenBlindly(b: seq<World>, c: ClientId) returns (b': seq<World>)
    requires b != [] && Behaviour(b) && c in b[|b| - 1].clients && b[|b| - 1].clients[c].mode == Idle
    requires b[|b| - 1].copy.Copy? && b[|b| - 1].timeline != []
    requires b[|b| - 1].clients[c].cached == Some(b[|b| - 1].copy.version)
    requires b[|b| - 1].clients[c].tainted || b[|b| - 1].clients[c].inc != b[|b| - 1].inc
    ensures b' != [] && Behaviour(b') && b'[|b'| - 1] == With(b[|b| - 1], c, b[|b| - 1].clients[c].(mode := Trusting))
  {
    hide Behaviour;
    var w := b[|b| - 1];
    var w1 := With(w, c, w.clients[c].(mode := Asking(|w.timeline| - 1)));
    var w2 := With(w1, c, w.clients[c].(mode := Trusting));
    assert OpenRpc(w, w1, c);
    Then(b, w1, c);
    assert Validate(w1, w2, c);
    Then(b + [w1], w2, c);
    b' := b + [w1] + [w2];
    assert w2 == With(w, c, w.clients[c].(mode := Trusting));
  }

  // Deleting and re-creating a file repeats version numbers: another client's clean copy of
  // the old file is validated against the new one.
  lemma RecreationDefeatsValidation(x: Bytes, y: Bytes) returns (b: seq<World>)
    requires x != [] && y != [] && x != y
    ensures b != [] && Behaviour(b)
    ensures var w := b[|b| - 1];
      && 1 in w.clients && w.clients[1].mode == Trusting && !w.clients[1].tainted
      && w.copy == Copy(y, 2) && w.clients[1].local == x
  {
    b := [World(Copy(x, 2), 0, 0, map[2 := x], [Copy(x, 2)], map[0 := FRESH, 1 := FRESH])];
    assert Behaviour(b);
    hide Behaviour;
    b := CacheAndClose(b, 1);
    b := DeleteAndCreate(b, 0);
    b := WriteAndStore(b, 0, y);
    b := ReopenBlindly(b, 1);
  }

  // A close that fails leaves the written copy under the old version: the next open
  // validates bytes that the server never received.
  lemma FailedCloseServesUnsavedBytes(x: Bytes, y: Bytes) returns (b: seq<World>)
    requires x != [] && y != x
    ensures b != [] && Behaviour(b)
    ensures var w := b[|b| - 1];
      && 0 in w.clients && w.clients[0].mode == Trusting && w.clients[0].inc == w.inc
      && w.copy == Copy(x, 1) && w.clients[0].local == y
  {
    var w0 := World(Copy(x, 1), 0, 0, map[1 := x], [Copy(x, 1)], map[0 := FRESH]);
    var w1 := With(w0, 0, FRESH.(mode := Fetching(0, 0, 0)));
    var w2 := With(w1, 0, Client(Some(1), x, 0, false, Reading(0, 0)));
    var s := Client(Some(1), y, 0, true, Writing);
    b := [w0];
    assert Behaviour(b);
    hide Behaviour;
    assert OpenRpc(w0, w1, 0);
    Then([w0], w1, 0);
    assert Fetch(w1, w2, 0);
    Then([w0] + [w1], w2, 0);
    b := FailToClose([w0] + [w1] + [w2], 0, y);
    b := ReopenBlindly(b, 0);
  }

  lemma FailToClose(b: seq<World>, c: ClientId, y: Bytes) returns (b': seq<World>)
    requires b != [] && Behaviour(b) && c in b[|b| - 1].clients && b[|b| - 1].clients[c].mode.Reading?
    ensures b' != [] && Behaviour(b')
    ensures b'[|b'| - 1] == With(b[|b| - 1], c, b[|b| - 1].clients[c].(local := y, tainted := true, mode := Idle))
  {
    hide Behaviour;
    var w := b[|b| - 1];
    var s := w.clients[c].(local := y, tainted := true);
    var w1 := With(w, c, s.(mode := Writing));
    var w2 := With(w1, c, s.(mode := Flushing));
    var w3 := With(w2, c, s.(mode := Idle));
    assert Write(w, w1, c, y);
    Then(b, w1, c);
    assert Close(w1, w2, c);
    Then(b + [w1], w2, c);
    assert CloseFails(w2, w3, c);
    Then(b + [w1] + [w2], w3, c);
    b' := b + [w1] + [w2] + [w3];
    assert w3 == With(w, c, s.(mode := Idle));
  }

  // A client whose first attempt to fetch breaks off keeps the version it saw.
  lemma BreakAFetch(b: seq<World>, c: ClientId) returns (b': seq<World>)
    requires b != [] && Behaviour(b) && c in b[|b| - 1].clients && b[|b| - 1].clients[c] == FRESH
    requires b[|b| - 1].copy.Copy? && b[|b| - 1].copy.content != [] && b[|b| - 1].timeline != []
    ensures b' != [] && Behaviour(b')
    ensures var w := b[|b| - 1];
      b'[|b'| - 1] == With(w, c, FRESH.(mode := Fetching(|w.timeline| - 1, w.copy.version, w.inc)))
  {
    hide Behaviour;
    var w, k := b[|b| - 1], |b[|b| - 1].timeline| - 1;
    var w1 := With(w, c, FRESH.(mode := Fetching(k, 0, 0)));
    var w2 := With(w1, c, FRESH.(mode := Fetching(k, w.copy.version, w.inc)));
    assert OpenRpc(w, w1, c);
    Then(b, w1, c);
    assert BrokenFetch(w1, w2, c);
    Then(b + [w1], w2, c);
    b' := b + [w1] + [w2];
    assert w2 == With(w, c, FRESH.(mode := Fetching(k, w.copy.version, w.inc)));
  }

  // Its second attempt finds an empty file, which it records under that version and closes.
  lemma FetchEmpty(b: seq<World>, c: ClientId) returns (b': seq<World>)
    requires b != [] && Behaviour(b) && c in b[|b| - 1].clients && b[|b| - 1].timeline != []
    requires b[|b| - 1].clients[c].mode.Fetching? && b[|b| - 1].clients[c].mode.seen > 0
    requires b[|b| - 1].copy.Copy? && b[|b| - 1].copy.content == []
    ensures b' != [] && Behaviour(b')
    ensures var w := b[|b| - 1];
      var m := w.clients[c].mode;
      b'[|b'| - 1] == With(w, c, Client(Some(m.seen), [], m.seenInc, false, Idle))
  {
    hide Behaviour;
    var w, m := b[|b| - 1], b[|b| - 1].clients[c].mode;
    var held := Client(Some(m.seen), [], m.seenInc, false, Reading(m.start, |w.timeline| - 1));
    var w1 := With(w, c, held);
    var w2 := With(w1, c, held.(mode := Idle));
    assert Fetch(w, w1, c);
    Then(b, w1, c);
    assert Close(w1, w2, c);
    Then(b + [w1], w2, c);
    b' := b + [w1] + [w2];
    assert w2 == With(w, c, held.(mode := Idle));
  }

  // A fetch that breaks off and is repeated after another client re-created the file records
  // the old version for the empty new one; once the file reaches that version, the server
  // confirms an empty copy that was never written to.
  lemma BrokenFetchDefeatsValidation(x: Bytes, y: Bytes) returns (b: seq<World>)
    requires x != [] && y != []
    ensures b != [] && Behaviour(b)
    ensures var w := b[|b| - 1];
      && 1 in w.clients && w.clients[1].mode == Trusting && !w.clients[1].tainted
      && w.copy == Copy(y, 2) && w.clients[1].local == []
  {
    b := [World(Copy(x, 2), 0, 0, map[2 := x], [Copy(x, 2)], map[0 := FRESH, 1 := FRESH])];
    assert Behaviour(b);
    hide Behaviour;
    b := BreakAFetch(b, 1);
    b := DeleteAndCreate(b, 0);
    b := FetchEmpty(b, 1);
    b := WriteAndStore(b, 0, y);
    b := ReopenBlindly(b, 1);
  }

  lemma ThenRestart(b: seq<World>, w: World) returns (b': seq<World>)
    requires b != [] && Behaviour(b) && Restart(b[|b| - 1], w)
    ensures b' != [] && Behaviour(b') && b'[|b'| - 1] == w
  {
    assert Step(b[|b| - 1], w);
    hide Step, Init;
    b' := b + [w];
  }

  // A restart of the server repeats version numbers, too: without any delete or failed close a
  // clean copy is validated against later content.
  lemma RestartDefeatsValidation(x: Bytes, y: Bytes) returns (b: seq<World>)
    requires x != [] && y != [] && x != y
    ensures b != [] && Behaviour(b)
    ensures var w := b[|b| - 1];
      && 1 in w.clients && w.clients[1].mode == Trusting && !w.clients[1].tainted
      && w.copy == Copy(y, 2) && w.clients[1].local == x
  {
    b := [World(Copy(x, 2), 0, 0, map[2 := x], [Copy(x, 2)], map[0 := FRESH, 1 := FRESH])];
    assert Behaviour(b);
    hide Behaviour;
    b := CacheAndClose(b, 1);
    var w := b[|b| - 1];
    var copy := Copy(x, 1);
    b := ThenRestart(b, w.(copy := copy, inc := w.inc + 1, boots := w.boots + 1, history := map[1 := x],
                           timeline := w.timeline + [copy]));
    b := OpenAndFetch(b, 0);
    b := WriteAndStore(b, 0, y);
    b := ReopenBlindly(b, 1);
  }

  // ---------- Exactly which copies can go wrong ----------

  // The server would confirm the copy of a client, which is not what the server has.
  predicate WronglyConfirmed(w: World, c: ClientId)
  {
    && c in w.clients && w.copy.Copy?
    && w.clients[c].cached == Some(w.copy.version) && w.clients[c].local != w.copy.content
  }

  // Other clients go on, without a delete or a restart, while this one rests.
  ghost predicate Meanwhile(p: seq<World>, w: World, c: ClientId)
  {
    && p != [] && p[0] == w
    && (forall i :: 0 <= i < |p| ==> c in p[i].clients && c in w.clients && p[i].clients[c] == w.clients[c])
    && forall i :: 0 <= i < |p| - 1 ==> Step(p[i], p[i + 1]) && !Resets(p[i], p[i + 1])
  }

  ghost predicate GoesWrong(p: seq<World>, w: World, c: ClientId)
  {
    Meanwhile(p, w, c) && WronglyConfirmed(p[|p| - 1], c)
  }

  lemma MeanwhileThen(p: seq<World>, w: World, c: ClientId, d: ClientId, w': World) returns (q: seq<World>)
    requires Meanwhile(p, w, c) && c in w'.clients && w'.clients[c] == w.clients[c]
    requires w'.boots == p[|p| - 1].boots && (w'.copy.Copy? || w'.timeline == p[|p| - 1].timeline)
    requires var last := p[|p| - 1]; OpenStep(last, w', d) || LocalStep(last, w', d) || MutationStep(last, w', d)
    ensures q != [] && Meanwhile(q, w, c) && q[|q| - 1] == w'
  {
    hide OpenStep, LocalStep, MutationStep;
    var last := p[|p| - 1];
    assert Step(last, w') && !Resets(last, w');
    hide Step, Resets;
    q := p + [w'];
    forall i | 0 <= i < |q| - 1
      ensures Step(q[i], q[i + 1]) && !Resets(q[i], q[i + 1])
    {
      if i < |p| - 1 { assert q[i] == p[i] && q[i + 1] == p[i + 1]; }
    }
  }

  // An idle client opens the file, whatever it has cached.
  lemma OpenMeanwhile(p: seq<World>, w: World, c: ClientId, d: ClientId) returns (q: seq<World>)
    requires Meanwhile(p, w, c) && c != d && d in p[|p| - 1].clients && p[|p| - 1].clients[d].mode == Idle
    requires p[|p| - 1].copy.Copy? && p[|p| - 1].timeline != []
    ensures Meanwhile(q, w, c) && d in q[|q| - 1].clients && q[|q| - 1].clients[d].mode.Reading?
    ensures q[|q| - 1].copy == p[|p| - 1].copy && q[|q| - 1].timeline == p[|p| - 1].timeline
  {
    hide Meanwhile;
    StillThere(p, w, c);
    var last := p[|p| - 1];
    var s, k := last.clients[d], |last.timeline| - 1;
    var w1 := With(last, d, s.(mode := if s.cached.Some? then Asking(k) else Fetching(k, 0, 0)));
    assert OpenRpc(last, w1, d);
    q := MeanwhileThen(p, w, c, d, w1);
    var w2 := With(w1, d, s.(mode := Fetching(k, 0, 0)));
    if s.cached.Some? {
      assert Reject(w1, w2, d);
      q := MeanwhileThen(q, w, c, d, w2);
    }
    var version := if last.copy.content == [] then 0 else last.copy.version;
    var w3 := With(w2, d, Client(Some(version), last.copy.content, last.inc, false, Reading(k, k)));
    assert Fetch(w2, w3, d);
    q := MeanwhileThen(q, w, c, d, w3);
  }

  lemma StillThere(p: seq<World>, w: World, c: ClientId)
    requires Meanwhile(p, w, c)
    ensures p != [] && c in p[|p| - 1].clients && c in w.clients && p[|p| - 1].clients[c] == w.clients[c]
  {
  }

  // It writes y, and its store succeeds.
  lemma StoreMeanwhile(p: seq<World>, w: World, c: ClientId, d: ClientId, y: Bytes) returns (q: seq<World>)
    requires Meanwhile(p, w, c) && c != d && d in p[|p| - 1].clients && p[|p| - 1].clients[d].mode.Reading?
    requires p[|p| - 1].copy.Copy? && y != []
    ensures Meanwhile(q, w, c) && d in q[|q| - 1].clients && q[|q| - 1].clients[d].mode == Idle
    ensures q[|q| - 1].copy == Copy(y, p[|p| - 1].copy.version + 1) && q[|q| - 1].timeline != []
  {
    hide Meanwhile;
    StillThere(p, w, c);
    var last := p[|p| - 1];
    var s, v := last.clients[d].(local := y, tainted := true), last.copy.version + 1;
    var w1 := With(last, d, s.(mode := Writing));
    var w2 := With(w1, d, s.(mode := Flushing));
    var w3 := With(w2, d, s.(mode := Stored(v, last.inc, last.boots)))
              .(copy := Copy(y, v), history := last.history[v := y], timeline := last.timeline + [Copy(y, v)]);
    var w4 := With(w3, d, s.(mode := Idle, tainted := false, inc := last.inc,
                             cached := if s.cached.Some? then Some(v) else None));
    assert Write(last, w1, d, y);
    q := MeanwhileThen(p, w, c, d, w1);
    assert Close(w1, w2, d);
    q := MeanwhileThen(q, w, c, d, w2);
    assert StoreRpc(w2, w3, d);
    q := MeanwhileThen(q, w, c, d, w3);
    assert StoreAnswered(w3, w4, d);
    q := MeanwhileThen(q, w, c, d, w4);
  }

  // Another client raises the file to any larger version, with any content.
  lemma {:induction false} RaiseTo(p: seq<World>, w: World, c: ClientId, d: ClientId, v: nat, y: Bytes)
    returns (q: seq<World>)
    requires Meanwhile(p, w, c) && c != d && d in p[|p| - 1].clients && p[|p| - 1].clients[d].mode == Idle
    requires p[|p| - 1].copy.Copy? && p[|p| - 1].timeline != [] && y != [] && v > p[|p| - 1].copy.version
    ensures Meanwhile(q, w, c) && q[|q| - 1].copy == Copy(y, v)
    decreases v - p[|p| - 1].copy.version
  {
    hide Meanwhile;
    q := OpenMeanwhile(p, w, c, d);
    StillThere(q, w, c);
    q := StoreMeanwhile(q, w, c, d, y);
    StillThere(q, w, c);
    if v > q[|q| - 1].copy.version {
      q := RaiseTo(q, w, c, d, v, y);
    }
  }

  // In the state of a deleted path: whether a client can still get to store it.
  ghost predicate CanStore(w: World, s: Client)
  {
    || s.mode.Reading? || s.mode.Trusting? || s.mode.Writing? || s.mode.CreatePending?
    || (s.mode == Flushing && s.local != [])
    || (s.mode.Asking? && s.cached == Some(0))
    || (s.mode.Stored? && s.mode.boot < w.boots && s.local != [])
  }

  // Such a client writes to the deleted path, or has written, and stores it at version 1.
  lemma StoreDeleted(w: World, c: ClientId, d: ClientId) returns (p: seq<World>)
    requires c in w.clients && d in w.clients && c != d && w.copy.Missing? && CanStore(w, w.clients[d])
    ensures Meanwhile(p, w, c) && p[|p| - 1].copy.Copy? && p[|p| - 1].copy.version == 1
    ensures p[|p| - 1].copy.content != []
  {
    p := [w];
    assert Meanwhile(p, w, c);
    hide Meanwhile, Step, Resets;
    var s := w.clients[d];
    if s.mode == Flushing {
      p := FlushDeleted(p, w, c, d);
    } else if s.mode.Stored? {
      var w1 := With(w, d, s.(mode := Flushing));
      assert Resend(w, w1, d);
      p := MeanwhileThen(p, w, c, d, w1);
      p := FlushDeleted(p, w, c, d);
    } else {
      var w1 := w;
      if s.mode.CreatePending? {
        w1 := With(w, d, Client(Some(1), [], s.mode.inc, false, Reading(s.mode.at, s.mode.at)));
        assert CreateAnswered(w, w1, d);
        p := MeanwhileThen(p, w, c, d, w1);
      } else if s.mode.Asking? {
        w1 := With(w, d, s.(mode := Trusting));
        assert Validate(w, w1, d);
        p := MeanwhileThen(p, w, c, d, w1);
      }
      var s1 := w1.clients[d].(local := [0], tainted := true);
      var w2 := With(w1, d, s1.(mode := Writing));
      assert Write(w1, w2, d, [0]);
      p := MeanwhileThen(p, w, c, d, w2);
      var w3 := With(w2, d, s1.(mode := Flushing));
      assert Close(w2, w3, d);
      p := MeanwhileThen(p, w, c, d, w3);
      p := FlushDeleted(p, w, c, d);
    }
  }

  lemma FlushDeleted(p: seq<World>, w: World, c: ClientId, d: ClientId) returns (q: seq<World>)
    requires p != [] && Meanwhile(p, w, c) && c != d && d in p[|p| - 1].clients && p[|p| - 1].copy.Missing?
    requires p[|p| - 1].clients[d].mode == Flushing && p[|p| - 1].clients[d].local != []
    ensures q != [] && Meanwhile(q, w, c) && q[|q| - 1].copy == Copy(p[|p| - 1].clients[d].local, 1)
  {
    hide Meanwhile;
    StillThere(p, w, c);
    var last := p[|p| - 1];
    var s := last.clients[d];
    var copy := Copy(s.local, 1);
    var w1 := With(last, d, s.(mode := Stored(1, last.inc + 1, last.boots)))
              .(copy := copy, inc := last.inc + 1, timeline := last.timeline + [copy], history := map[1 := s.local]);
    assert StoreRpc(last, w1, d);
    q := MeanwhileThen(p, w, c, d, w1);
  }

  // An idle client creates the deleted file again.
  lemma CreateMeanwhile(w: World, c: ClientId, d: ClientId) returns (p: seq<World>)
    requires c in w.clients && d in w.clients && c != d && w.copy.Missing? && w.clients[d].mode == Idle
    ensures p != [] && Meanwhile(p, w, c) && p[|p| - 1].copy == Copy([], 1) && p[|p| - 1].timeline != []
    ensures d in p[|p| - 1].clients && p[|p| - 1].clients[d].mode.Reading?
  {
    p := [w];
    assert Meanwhile(p, w, c);
    hide Meanwhile, Step, Resets;
    var copy, k := Copy([], 1), |w.timeline|;
    var w1 := With(w, d, w.clients[d].(mode := CreatePending(w.inc + 1, k)))
              .(copy := copy, inc := w.inc + 1, history := map[1 := []], timeline := w.timeline + [copy]);
    assert CreateRpc(w, w1, d);
    p := MeanwhileThen(p, w, c, d, w1);
    var w2 := With(w1, d, Client(Some(1), [], w.inc + 1, false, Reading(k, k)));
    assert CreateAnswered(w1, w2, d);
    p := MeanwhileThen(p, w, c, d, w2);
  }

  // Nobody but a resting client can store the deleted file, or it is back, empty at version 1
  // or at a larger version.
  ghost predicate OnlyEmptyAtOne(w: World, c: ClientId)
  {
    match w.copy
    case Missing => forall e :: e in w.clients && e != c ==> !CanStore(w, w.clients[e])
    case Copy(content, version) => version > 1 || (content == [] && version == 1)
  }

  lemma OnlyEmptyAtOneStep(w: World, w': World, c: ClientId)
    requires OnlyEmptyAtOne(w, c) && Step(w, w') && !Resets(w, w')
    requires c in w.clients && c in w'.clients && w'.clients[c] == w.clients[c]
    ensures OnlyEmptyAtOne(w', c)
  {
    hide OpenStep, LocalStep, MutationStep, CanStore, DeleteRpc;
    var d :| OpenStep(w, w', d) || LocalStep(w, w', d) || MutationStep(w, w', d);
    if MutationStep(w, w', d) {
      MutationToEmpty(w, w', c, d);
    } else {
      QuietToEmpty(w, w', c, d);
    }
  }

  lemma MutationToEmpty(w: World, w': World, c: ClientId, d: ClientId)
    requires OnlyEmptyAtOne(w, c) && MutationStep(w, w', d) && !DeleteRpc(w, w', d)
    requires c in w.clients && c in w'.clients && w'.clients[c] == w.clients[c]
    ensures OnlyEmptyAtOne(w', c)
  {
  }

  lemma QuietToEmpty(w: World, w': World, c: ClientId, d: ClientId)
    requires OnlyEmptyAtOne(w, c) && (OpenStep(w, w', d) || LocalStep(w, w', d))
    requires c in w.clients && c in w'.clients && w'.clients[c] == w.clients[c]
    ensures OnlyEmptyAtOne(w', c)
  {
    if w.copy.Missing? {
      if d != c { StillCannotStore(w, w', d); }
      assert w'.copy == w.copy && w'.boots == w.boots && w'.clients == w.clients[d := w'.clients[d]];
    }
  }

  lemma StillCannotStore(w: World, w': World, d: ClientId)
    requires w.copy.Missing? && (OpenStep(w, w', d) || LocalStep(w, w', d)) && d in w.clients
    requires !CanStore(w, w.clients[d])
    ensures d in w'.clients && !CanStore(w', w'.clients[d])
  {
  }

  lemma {:induction false} OnlyEmptyAtOneMeanwhile(p: seq<World>, w: World, c: ClientId, i: nat)
    requires Meanwhile(p, w, c) && OnlyEmptyAtOne(w, c) && i < |p|
    ensures OnlyEmptyAtOne(p[i], c)
  {
    hide Step, Resets, OnlyEmptyAtOne;
    if i > 0 {
      OnlyEmptyAtOneMeanwhile(p, w, c, i - 1);
      assert Step(p[i - 1], p[i - 1 + 1]) && !Resets(p[i - 1], p[i - 1 + 1]);
      OnlyEmptyAtOneStep(p[i - 1], p[i - 1 + 1], c);
    }
  }

  // While nobody deletes it, the file keeps its content until its version grows.
  ghost predicate Grown(w: World, w': World)
  {
    w.copy.Copy? && w'.copy.Copy? && (w'.copy == w.copy || w'.copy.version > w.copy.version)
  }

  lemma GrownStep(w: World, w': World, w'': World)
    requires Grown(w, w') && Step(w', w'') && !Resets(w', w'')
    ensures Grown(w, w'')
  {
  }

  lemma {:induction false} GrownMeanwhile(p: seq<World>, w: World, c: ClientId, i: nat)
    requires Meanwhile(p, w, c) && w.copy.Copy? && i < |p|
    ensures Grown(w, p[i])
  {
    hide Step, Resets;
    if i > 0 {
      GrownMeanwhile(p, w, c, i - 1);
      assert Step(p[i - 1], p[i - 1 + 1]) && !Resets(p[i - 1], p[i - 1 + 1]);
      GrownStep(w, p[i - 1], p[i - 1 + 1]);
    }
  }

  // A recorded version ahead of the server's, or equal to it with other bytes. If the path is
  // deleted: version 2 or more, or version 1 unless the copy is empty and nobody can store.
  ghost predicate CanGoWrong(w: World, c: ClientId)
    requires c in w.clients && w.clients[c].cached.Some?
  {
    var s := w.clients[c];
    match w.copy
    case Copy(content, version) => s.cached.value > version || (s.cached.value == version && s.local != content)
    case Missing =>
      || s.cached.value > 1
      || (s.cached.value == 1 && (s.local != [] || exists e :: e in w.clients && e != c && CanStore(w, w.clients[e])))
  }

  // A copy can come to be wrongly confirmed, without any further delete or restart, exactly in
  // these cases.
  lemma GoesWrongIff(b: seq<World>, i: nat, c: ClientId, d: ClientId)
    requires Behaviour(b) && i < |b| && c != d && c in b[i].clients && d in b[i].clients
    requires b[i].clients[d].mode == Idle && b[i].clients[c].cached.Some?
    ensures (exists p :: GoesWrong(p, b[i], c)) <==> CanGoWrong(b[i], c)
  {
    hide Step, Resets, CanStore;
    BehaviourInv(b, i);
    if b[i].copy.Copy? {
      WrongWhilePresent(b[i], c, d);
    } else {
      WrongWhileDeleted(b[i], c, d);
    }
  }

  lemma WrongWhilePresent(w: World, c: ClientId, d: ClientId)
    requires Inv(w) && w.copy.Copy? && c != d && c in w.clients && d in w.clients
    requires w.clients[d].mode == Idle && w.clients[c].cached.Some?
    ensures (exists p :: GoesWrong(p, w, c)) <==> CanGoWrong(w, c)
  {
    hide Step, Resets;
    var s := w.clients[c];
    if s.cached.value == w.copy.version && s.local != w.copy.content {
      assert GoesWrong([w], w, c);
    } else if s.cached.value > w.copy.version {
      var y := s.local + [0];
      var p := RaiseTo([w], w, c, d, s.cached.value, y);
      StillThere(p, w, c);
      assert |y| > |s.local|;
      assert GoesWrong(p, w, c);
    } else {
      if p :| GoesWrong(p, w, c) {
        GrownMeanwhile(p, w, c, |p| - 1);
      }
    }
  }

  lemma WrongWhileDeleted(w: World, c: ClientId, d: ClientId)
    requires Inv(w) && w.copy.Missing? && c != d && c in w.clients && d in w.clients
    requires w.clients[d].mode == Idle && w.clients[c].cached.Some?
    ensures (exists p :: GoesWrong(p, w, c)) <==> CanGoWrong(w, c)
  {
    hide Step, Resets, Meanwhile, CanStore;
    var s := w.clients[c];
    var v := s.cached.value;
    if CanGoWrong(w, c) {
      var p := WrongAfterDelete(w, c, d);
      assert GoesWrong(p, w, c);
    } else {
      if p :| GoesWrong(p, w, c) {
        StillThere(p, w, c);
        if v == 1 {
          OnlyEmptyAtOneMeanwhile(p, w, c, |p| - 1);
        } else {
          VersionsFromOne(p, w, c, |p| - 1);
        }
      }
    }
  }

  lemma WrongAfterDelete(w: World, c: ClientId, d: ClientId) returns (p: seq<World>)
    requires w.copy.Missing? && c != d && c in w.clients && d in w.clients
    requires w.clients[d].mode == Idle && w.clients[c].cached.Some? && CanGoWrong(w, c)
    ensures GoesWrong(p, w, c)
  {
    hide Step, Resets, Meanwhile, CanStore;
    var s := w.clients[c];
    if s.cached.value == 1 && s.local == [] {
      var e :| e in w.clients && e != c && CanStore(w, w.clients[e]);
      p := StoreDeleted(w, c, e);
    } else {
      p := CreateMeanwhile(w, c, d);
      var y := s.local + [0];
      assert |y| > |s.local|;
      if s.cached.value > 1 {
        p := StoreMeanwhile(p, w, c, d, y);
        if s.cached.value > 2 {
          StillThere(p, w, c);
          p := RaiseTo(p, w, c, d, s.cached.value, y);
        }
      }
    }
    StillThere(p, w, c);
  }

  // Versions start at 1.
  lemma {:induction false} VersionsFromOne(p: seq<World>, w: World, c: ClientId, i: nat)
    requires Meanwhile(p, w, c) && (w.copy.Copy? ==> w.copy.version >= 1) && i < |p|
    ensures p[i].copy.Copy? ==> p[i].copy.version >= 1
  {
    if i > 0 {
      VersionsFromOne(p, w, c, i - 1);
      assert Step(p[i - 1], p[i - 1 + 1]);
    }
  }
}
