/**
 One AFS server: its files, versions, open handles and the table of replies with which
 retried requests are answered.
 */
module Handler {
  import opened Words
  import opened Sequences
  import opened Decimal

  type Bytes = seq<byte>

  // ---------- Requests and replies ----------

  datatype StoreChunk = StoreChunk(path: string, clientId: string, reqSeq: int, data: Bytes)

  // A store request is the stream of its chunks and whether the stream ended or broke.
  datatype Request =
    | OpenReq(path: string, write: bool, clientId: string, reqSeq: int)
    | StoreReq(chunks: seq<StoreChunk>, eof: bool)
    | CreateReq(path: string, clientId: string, reqSeq: int)
    | DeleteReq(path: string, clientId: string, reqSeq: int)

  datatype Reply =
    | OpenReply(handle: nat, error: string)
    | StoreReply(version: nat, error: string)
    | CreateReply(handle: nat, error: string)
    | DeleteReply(error: string)

  // A recorded reply of the wrong type makes the handler panic; a broken stream gets no reply.
  datatype Outcome = Replied(reply: Reply) | StreamBroken | Panicked

  const NOT_PRIMARY := "not primary: send writes to primary"
  const NO_DATA := "no data received"
  const NOT_FOUND := "file not found"
  const EXISTS := "file already exists"

  function DedupKey(clientId: string, reqSeq: int): string
  {
    clientId + ":" + IntDigits(reqSeq)
  }

  lemma NoColonInNumeral(n: int)
    ensures ':' !in IntDigits(n)
  {
    var digits := Digits(if n < 0 then -n else n);
    assert forall i :: 0 <= i < |digits| ==> IsDigit(digits[i]);
  }

  lemma SameSeparator(a: string, s: string, b: string, t: string)
    requires a + ":" + s == b + ":" + t && ':' !in t && |a| <= |b|
    ensures ':' in s || (a == b && s == t)
  {
    var all := a + ":" + s;
    assert all == b + ":" + t;
    if |a| < |b| {
      assert all[|b|] == ':' && all[|b|] == s[|b| - |a| - 1];
    } else {
      assert a == all[..|a|] == b && s == all[|a| + 1..] == t;
    }
  }

  // Different client ids or sequence numbers never share a key.
  lemma DedupKeyInjective(c: string, q: int, d: string, r: int)
    requires DedupKey(c, q) == DedupKey(d, r)
    ensures c == d && q == r
  {
    hide IntDigits;
    NoColonInNumeral(q);
    NoColonInNumeral(r);
    if |c| <= |d| {
      SameSeparator(c, IntDigits(q), d, IntDigits(r));
    } else {
      SameSeparator(d, IntDigits(r), c, IntDigits(q));
    }
    IntDigitsInjective(q, r);
  }

  // ---------- The server's state ----------

  datatype FileHandle = FileHandle(path: string, isWrite: bool)

  // inputs never change; files and versions are the output directory and its version table.
  datatype Server = Server(primary: bool, inputs: map<string, Bytes>, files: map<string, Bytes>,
                           versions: map<string, nat>, handles: map<nat, FileHandle>,
                           nextHandle: nat, dedup: map<string, Reply>)

  ghost predicate Consistent(s: Server)
  {
    s.versions.Keys == s.files.Keys && forall p :: p in s.versions ==> s.versions[p] >= 1
  }

  function Version(s: Server, path: string): nat
  {
    if path in s.inputs then 1 else if path in s.files && path in s.versions then s.versions[path] else 0
  }

  // What a server holds of one stored path.
  datatype Copy = Missing | Copy(content: Bytes, version: nat)

  function VersionOf(c: Copy): nat
  {
    if c.Missing? then 0 else c.version
  }

  function CopyOf(s: Server, path: string): Copy
  {
    if path in s.files then Copy(s.files[path], if path in s.versions then s.versions[path] else 0) else Missing
  }

  // ---------- What each request does ----------

  function Concat(chunks: seq<StoreChunk>): Bytes
  {
    if chunks == [] then [] else Concat(chunks[..|chunks| - 1]) + chunks[|chunks| - 1].data
  }

  lemma ConcatStart(chunks: seq<StoreChunk>)
    ensures Concat(chunks[..0]) == []
  {
  }

  lemma ConcatOneMore(chunks: seq<StoreChunk>, i: nat)
    requires i < |chunks|
    ensures Concat(chunks[..i + 1]) == Concat(chunks[..i]) + chunks[i].data
  {
    assert chunks[..i + 1][..i] == chunks[..i];
  }

  function Put(s: Server, path: string, data: Bytes): Server
  {
    var v := (if path in s.versions then s.versions[path] else 0) + 1;
    s.(files := s.files[path := data], versions := s.versions[path := v])
  }

  function Record(s: Server, key: string, reply: Reply): Server
  {
    s.(dedup := s.dedup[key := reply])
  }

  function NewHandle(s: Server, path: string, isWrite: bool): Server
  {
    s.(nextHandle := s.nextHandle + 1, handles := s.handles[s.nextHandle + 1 := FileHandle(path, isWrite)])
  }

  predicate SameKind(r: Request, reply: Reply)
  {
    match r
    case OpenReq(_, _, _, _) => reply.OpenReply?
    case StoreReq(_, _) => reply.StoreReply?
    case CreateReq(_, _, _) => reply.CreateReply?
    case DeleteReq(_, _, _) => reply.DeleteReply?
  }

  // The key of a request; a stream without chunks carries none.
  function Key(r: Request): Option<string>
  {
    match r
    case OpenReq(_, _, c, q) => Some(DedupKey(c, q))
    case StoreReq(chunks, _) => if chunks == [] then None else Some(DedupKey(chunks[0].clientId, chunks[0].reqSeq))
    case CreateReq(_, c, q) => Some(DedupKey(c, q))
    case DeleteReq(_, c, q) => Some(DedupKey(c, q))
  }

  // A request that is not answered from the table: its effect on everything but the table.
  function Execute(s: Server, r: Request): (Server, Outcome)
  {
    match r
    case OpenReq(path, write, _, _) =>
      if path in s.inputs || path in s.files
      then (NewHandle(s, path, write), Replied(OpenReply(s.nextHandle + 1, "")))
      else (s, Replied(OpenReply(0, NOT_FOUND)))
    case StoreReq(chunks, eof) =>
      if !eof then (s, StreamBroken)
      else if chunks == [] then (s, Replied(StoreReply(0, NO_DATA)))
      else
        var s' := Put(s, chunks[0].path, Concat(chunks));
        (s', Replied(StoreReply(s'.versions[chunks[0].path], "")))
    case CreateReq(path, _, _) =>
      if path in s.files then (s, Replied(CreateReply(0, EXISTS)))
      else
        var s' := s.(files := s.files[path := []], versions := s.versions[path := 1]);
        (NewHandle(s', path, true), Replied(CreateReply(s.nextHandle + 1, "")))
    case DeleteReq(path, _, _) =>
      (s.(files := s.files - {path}, versions := s.versions - {path}), Replied(DeleteReply("")))
  }

  function Refusal(r: Request): Reply
  {
    match r
    case OpenReq(_, _, _, _) => OpenReply(0, NOT_PRIMARY)
    case StoreReq(_, _) => StoreReply(0, NOT_PRIMARY)
    case CreateReq(_, _, _) => CreateReply(0, NOT_PRIMARY)
    case DeleteReq(_, _, _) => DeleteReply(NOT_PRIMARY)
  }

  predicate Refused(s: Server, r: Request)
  {
    !s.primary && !r.OpenReq?
  }

  predicate Recorded(s: Server, r: Request)
  {
    Key(r).Some? && Key(r).value in s.dedup
  }

  function Handle(s: Server, r: Request): (Server, Outcome)
  {
    if Refused(s, r) then (s, Replied(Refusal(r)))
    else if Recorded(s, r) then
      var reply := s.dedup[Key(r).value];
      (s, if SameKind(r, reply) then Replied(reply) else Panicked)
    else
      var (s', out) := Execute(s, r);
      if Succeeds(s, r) then (Record(s', Key(r).value, out.reply), out) else (s', out)
  }

  // The requests whose reply is recorded.
  predicate Succeeds(s: Server, r: Request)
    ensures Succeeds(s, r) ==> Key(r).Some? && Execute(s, r).1.Replied?
  {
    match r
    case OpenReq(path, _, _, _) => path in s.inputs || path in s.files
    case StoreReq(chunks, eof) => eof && chunks != []
    case CreateReq(path, _, _) => path !in s.files
    case DeleteReq(path, _, _) => true
  }

  // ---------- Replication, as a backup sees it ----------

  datatype Operation = StoreOp | CreateOp | DeleteOp

  datatype ReplicateChunk = ReplicateChunk(operation: Operation, path: string, version: nat, data: Bytes)

  function ConcatReplica(chunks: seq<ReplicateChunk>): Bytes
  {
    if chunks == [] then [] else ConcatReplica(chunks[..|chunks| - 1]) + chunks[|chunks| - 1].data
  }

  // A delete or create acts on the first chunk; a store only when its stream has ended.
  function ReplicaFiles(files: map<string, Bytes>, chunks: seq<ReplicateChunk>, eof: bool): map<string, Bytes>
  {
    if chunks == [] then files
    else match chunks[0].operation
      case DeleteOp => files - {chunks[0].path}
      case CreateOp => files[chunks[0].path := []]
      case StoreOp => if eof then files[chunks[0].path := ConcatReplica(chunks)] else files
  }

  function ReplicaVersions(versions: map<string, nat>, chunks: seq<ReplicateChunk>, eof: bool): map<string, nat>
  {
    if chunks == [] then versions
    else match chunks[0].operation
      case DeleteOp => versions - {chunks[0].path}
      case CreateOp => versions[chunks[0].path := chunks[0].version]
      case StoreOp => if eof then versions[chunks[0].path := chunks[0].version] else versions
  }

  function Replicated(s: Server, chunks: seq<ReplicateChunk>, eof: bool): Server
  {
    s.(files := ReplicaFiles(s.files, chunks, eof), versions := ReplicaVersions(s.versions, chunks, eof))
  }

  // ---------- The handler object ----------

  class HandlerObject {
    var primary: bool
    const inputs: map<string, Bytes>
    var files: map<string, Bytes>
    var versions: map<string, nat>
    var handles: map<nat, FileHandle>
    var nextHandle: nat
    var dedupTable: map<string, Reply>

    ghost function Now(): Server
      reads this
    {
      Server(primary, inputs, files, versions, handles, nextHandle, dedupTable)
    }

    // Files found on disk at start-up get version 1.
    constructor (inputs: map<string, Bytes>, outputs: map<string, Bytes>, isPrimary: bool)
      ensures Now() == Server(isPrimary, inputs, outputs, map p | p in outputs :: 1, map[], 0, map[])
      ensures Consistent(Now())
    {
      this.inputs, files, primary := inputs, outputs, isPrimary;
      versions := map p | p in outputs :: 1;
      handles, nextHandle, dedupTable := map[], 0, map[];
    }

    method Open(path: string, write: bool, clientId: string, reqSeq: int) returns (out: Outcome)
      modifies this
      ensures (Now(), out) == Handle(old(Now()), OpenReq(path, write, clientId, reqSeq))
    {
      var key := DedupKey(clientId, reqSeq);
      if key in dedupTable {
        var entry := dedupTable[key];
        return if entry.OpenReply? then Replied(entry) else Panicked;
      }
      if path !in inputs && path !in files {
        return Replied(OpenReply(0, NOT_FOUND));
      }
      nextHandle := nextHandle + 1;
      handles := handles[nextHandle := FileHandle(path, write)];
      var resp := OpenReply(nextHandle, "");
      dedupTable := dedupTable[key := resp];
      out := Replied(resp);
    }

    // Returns the content in chunks, each with the version, or None if there is no such file.
    method FetchFile(path: string) returns (chunks: Option<seq<Bytes>>, version: nat)
      ensures chunks.None? <==> path !in inputs && path !in files
      ensures chunks.Some? ==>
        && chunks.value == Pieces(if path in inputs then inputs[path] else files[path], CHUNK_SIZE)
        && version == Version(Now(), path)
    {
      if path !in inputs && path !in files {
        return None, 0;
      }
      var content := if path in inputs then inputs[path] else files[path];
      version := if path in inputs then 1 else if path in versions then versions[path] else 0;
      var sent := SendPieces(content);
      chunks := Some(sent);
    }

    method TestAuth(path: string, cachedVersion: nat) returns (isValid: bool, version: nat)
      ensures version == Version(Now(), path) && isValid == (version == cachedVersion)
    {
      version := if path in inputs then 1 else if path in files && path in versions then versions[path] else 0;
      isValid := version == cachedVersion;
    }

    method StoreFile(chunks: seq<StoreChunk>, eof: bool) returns (out: Outcome)
      modifies this
      ensures (Now(), out) == Handle(old(Now()), StoreReq(chunks, eof))
    {
      hide DedupKey, Concat;
      if !primary {
        return Replied(StoreReply(0, NOT_PRIMARY));
      }
      var first := true;
      var path, key := "", "";
      ConcatStart(chunks);
      var tmp: Bytes := [];
      for i := 0 to |chunks|
        invariant first == (i == 0)
        invariant i > 0 ==> path == chunks[0].path && Some(key) == Key(StoreReq(chunks, eof)) && key !in dedupTable
        invariant tmp == Concat(chunks[..i])
        invariant unchanged(this)
      {
        var chunk := chunks[i];
        if first {
          first := false;
          path := chunk.path;
          key := DedupKey(chunk.clientId, chunk.reqSeq);
          if key in dedupTable {
            var entry := dedupTable[key];
            return if entry.StoreReply? then Replied(entry) else Panicked;
          }
        }
        ConcatOneMore(chunks, i);
        tmp := tmp + chunk.data;
      }
      assert chunks[..|chunks|] == chunks;
      if !eof {
        return StreamBroken;
      }
      if first {
        return Replied(StoreReply(0, NO_DATA));
      }
      files := files[path := tmp];
      var newVersion := (if path in versions then versions[path] else 0) + 1;
      versions := versions[path := newVersion];
      var resp := StoreReply(newVersion, "");
      dedupTable := dedupTable[key := resp];
      out := Replied(resp);
    }

    method CreateFile(path: string, clientId: string, reqSeq: int) returns (out: Outcome)
      modifies this
      ensures (Now(), out) == Handle(old(Now()), CreateReq(path, clientId, reqSeq))
    {
      if !primary {
        return Replied(CreateReply(0, NOT_PRIMARY));
      }
      var key := DedupKey(clientId, reqSeq);
      if key in dedupTable {
        var entry := dedupTable[key];
        return if entry.CreateReply? then Replied(entry) else Panicked;
      }
      if path in files {
        return Replied(CreateReply(0, EXISTS));
      }
      files := files[path := []];
      versions := versions[path := 1];
      nextHandle := nextHandle + 1;
      handles := handles[nextHandle := FileHandle(path, true)];
      var resp := CreateReply(nextHandle, "");
      dedupTable := dedupTable[key := resp];
      out := Replied(resp);
    }

    method DeleteFile(path: string, clientId: string, reqSeq: int) returns (out: Outcome)
      modifies this
      ensures (Now(), out) == Handle(old(Now()), DeleteReq(path, clientId, reqSeq))
    {
      if !primary {
        return Replied(DeleteReply(NOT_PRIMARY));
      }
      var key := DedupKey(clientId, reqSeq);
      if key in dedupTable {
        var entry := dedupTable[key];
        return if entry.DeleteReply? then Replied(entry) else Panicked;
      }
      files := files - {path};
      versions := versions - {path};
      var resp := DeleteReply("");
      dedupTable := dedupTable[key := resp];
      out := Replied(resp);
    }

    method CloseFile(handle: nat) returns (known: bool)
      modifies `handles
      ensures known == (handle in old(handles))
      ensures handles == old(handles) - {handle}
    {
      known := handle in handles;
      handles := handles - {handle};
    }

    method Replicate(chunks: seq<ReplicateChunk>, eof: bool)
      modifies this
      ensures Now() == Replicated(old(Now()), chunks, eof)
    {
      var first := true;
      var path, version := "", 0;
      var tmp: Bytes := [];
      for i := 0 to |chunks|
        invariant first == (i == 0)
        invariant i > 0 ==> path == chunks[0].path && version == chunks[0].version && chunks[0].operation == StoreOp
        invariant tmp == ConcatReplica(chunks[..i])
        invariant unchanged(this)
      {
        var chunk := chunks[i];
        if first {
          first := false;
          path, version := chunk.path, chunk.version;
          if chunk.operation == DeleteOp {
            files := files - {path};
            versions := versions - {path};
            return;
          } else if chunk.operation == CreateOp {
            files := files[path := []];
            versions := versions[path := version];
            return;
          }
        }
        assert chunks[..i + 1][..i] == chunks[..i];
        tmp := tmp + chunk.data;
      }
      assert chunks[..|chunks|] == chunks;
      if eof && !first {
        files := files[path := tmp];
        versions := versions[path := version];
      }
    }
  }

  // ---------- Chunk framing ----------

  const CHUNK_SIZE := 1024 * 1024

  // The read loop of every sender: successive full buffers, then a shorter last one.
  method SendPieces(content: Bytes) returns (sent: seq<Bytes>)
    ensures sent == Pieces(content, CHUNK_SIZE)
  {
    sent := [];
    var offset := 0;
    while offset < |content|
      invariant 0 <= offset <= |content| && (offset < |content| ==> Whole(offset, CHUNK_SIZE))
      invariant sent == Pieces(content[..offset], CHUNK_SIZE)
    {
      var n := if |content| - offset < CHUNK_SIZE then |content| - offset else CHUNK_SIZE;
      var piece := content[offset..offset + n];
      PiecesSplit(content[..offset], piece, CHUNK_SIZE);
      assert content[..offset + n] == content[..offset] + piece;
      assert Pieces(piece, CHUNK_SIZE) == [piece];
      if n == CHUNK_SIZE { WholeAddPiece(offset, CHUNK_SIZE); }
      sent := sent + [piece];
      offset := offset + n;
    }
    assert content[..|content|] == content;
  }

  function StoreFrames(path: string, clientId: string, reqSeq: int, pieces: seq<Bytes>): seq<StoreChunk>
  {
    seq(|pieces|, i requires 0 <= i < |pieces| =>
      if i == 0 then StoreChunk(path, clientId, reqSeq, pieces[0]) else StoreChunk("", "", 0, pieces[i]))
  }

  function ReplicateFrames(path: string, version: nat, pieces: seq<Bytes>): seq<ReplicateChunk>
  {
    seq(|pieces|, i requires 0 <= i < |pieces| =>
      if i == 0 then ReplicateChunk(StoreOp, path, version, pieces[0]) else ReplicateChunk(StoreOp, "", 0, pieces[i]))
  }

  function ReplicaSent(operation: Operation, path: string, content: Bytes, version: nat): seq<ReplicateChunk>
  {
    if operation == StoreOp then ReplicateFrames(path, version, Pieces(content, CHUNK_SIZE))
    else [ReplicateChunk(operation, path, version, [])]
  }

  // A delete or create is one chunk without data. The sender of a store marks its first chunk
  // with the operation and sends the rest bare.
  method SendReplica(operation: Operation, path: string, content: Bytes, version: nat)
    returns (sent: seq<ReplicateChunk>)
    ensures sent == ReplicaSent(operation, path, content, version)
  {
    if operation == DeleteOp || operation == CreateOp {
      return [ReplicateChunk(operation, path, version, [])];
    }
    var pieces := SendPieces(content);
    sent := [];
    var first := true;
    for i := 0 to |pieces|
      invariant first == (i == 0) && sent == ReplicateFrames(path, version, pieces)[..i]
    {
      if first {
        first := false;
        sent := sent + [ReplicateChunk(StoreOp, path, version, pieces[i])];
      } else {
        sent := sent + [ReplicateChunk(StoreOp, "", 0, pieces[i])];
      }
    }
  }

  lemma {:induction false} ConcatOfStoreFrames(path: string, clientId: string, reqSeq: int, pieces: seq<Bytes>)
    ensures Concat(StoreFrames(path, clientId, reqSeq, pieces)) == Flatten(pieces)
  {
    var frames := StoreFrames(path, clientId, reqSeq, pieces);
    if pieces == [] {
    } else {
      var front, last := pieces[..|pieces| - 1], pieces[|pieces| - 1];
      ConcatOfStoreFrames(path, clientId, reqSeq, front);
      assert frames[..|frames| - 1] == StoreFrames(path, clientId, reqSeq, front);
      FlattenSnoc(front, last);
      assert pieces == front + [last];
    }
  }

  lemma {:induction false} ConcatOfReplicateFrames(path: string, version: nat, pieces: seq<Bytes>)
    ensures ConcatReplica(ReplicateFrames(path, version, pieces)) == Flatten(pieces)
  {
    var frames := ReplicateFrames(path, version, pieces);
    if pieces == [] {
    } else {
      var front, last := pieces[..|pieces| - 1], pieces[|pieces| - 1];
      ConcatOfReplicateFrames(path, version, front);
      assert frames[..|frames| - 1] == ReplicateFrames(path, version, front);
      FlattenSnoc(front, last);
      assert pieces == front + [last];
    }
  }

  // A client's store, framed in any pieces: the primary ends up with exactly the client's
  // bytes at the next version; a file without bytes is refused.
  lemma StoreDelivers(s: Server, path: string, c: string, q: int, content: Bytes)
    requires s.primary && DedupKey(c, q) !in s.dedup
    ensures var frames := StoreFrames(path, c, q, Pieces(content, CHUNK_SIZE));
      var (s', out) := Handle(s, StoreReq(frames, true));
      if content == [] then s' == s && out == Replied(StoreReply(0, NO_DATA))
      else
        var v := (if path in s.versions then s.versions[path] else 0) + 1;
        && out == Replied(StoreReply(v, ""))
        && s'.files == s.files[path := content] && s'.versions == s.versions[path := v]
  {
    hide Whole, DedupKey, Pieces, Concat, Flatten;
    var pieces := Pieces(content, CHUNK_SIZE);
    PiecesRebuild(content, CHUNK_SIZE);
    NoPieces(content, CHUNK_SIZE);
    ConcatOfStoreFrames(path, c, q, pieces);
  }

  lemma NoPieces(content: Bytes, size: nat)
    requires size > 0
    ensures Pieces(content, size) == [] <==> content == []
  {
  }

  // The primary's replication: a backup that receives the whole stream holds exactly the
  // primary's bytes and version; one whose stream breaks is left as it was.
  lemma ReplicationDelivers(backup: Server, path: string, version: nat, content: Bytes, eof: bool)
    requires content != []
    ensures Replicated(backup, ReplicateFrames(path, version, Pieces(content, CHUNK_SIZE)), eof) ==
      if eof then backup.(files := backup.files[path := content], versions := backup.versions[path := version])
      else backup
  {
    hide Whole, Pieces, ConcatReplica, Flatten;
    var pieces := Pieces(content, CHUNK_SIZE);
    PiecesRebuild(content, CHUNK_SIZE);
    NoPieces(content, CHUNK_SIZE);
    ConcatOfReplicateFrames(path, version, pieces);
  }

  // A store whose stream breaks changes nothing, whatever part of it arrived.
  lemma BrokenStoreChangesNothing(s: Server, chunks: seq<StoreChunk>)
    ensures Handle(s, StoreReq(chunks, false)).0 == s
  {
    hide DedupKey, Concat;
  }

  // ---------- Invariant ----------

  lemma HandleConsistent(s: Server, r: Request)
    requires Consistent(s)
    ensures Consistent(Handle(s, r).0)
  {
    hide DedupKey, Concat;
  }

  // ---------- Exactly-once execution ----------

  // What can happen to a server: a request, a change of role, or a replicated operation.
  datatype Event = Call(request: Request) | Role(primary: bool) | Replica(chunks: seq<ReplicateChunk>, eof: bool)

  function Apply(s: Server, e: Event): Server
  {
    match e
    case Call(r) => Handle(s, r).0
    case Role(p) => s.(primary := p)
    case Replica(chunks, eof) => Replicated(s, chunks, eof)
  }

  function Run(s: Server, events: seq<Event>): Server
  {
    if events == [] then s else Apply(Run(s, events[..|events| - 1]), events[|events| - 1])
  }

  // Over every history, files and versions stay in step; the versions of replicated stores and
  // creates come from a primary, which numbers them from 1.
  lemma {:induction false} AlwaysConsistent(s: Server, events: seq<Event>)
    requires Consistent(s)
    requires forall i :: 0 <= i < |events| && events[i].Replica? ==> Numbered(events[i].chunks)
    ensures Consistent(Run(s, events))
  {
    hide Handle, Consistent, Replicated;
    if events == [] {
    } else {
      var front, e := events[..|events| - 1], events[|events| - 1];
      AlwaysConsistent(s, front);
      match e {
        case Call(r) => HandleConsistent(Run(s, front), r);
        case Role(p) => RoleConsistent(Run(s, front), p);
        case Replica(chunks, eof) => ReplicaConsistent(Run(s, front), chunks, eof);
      }
    }
  }

  // A replicated store or create carries a version from 1; a delete carries none.
  predicate Numbered(chunks: seq<ReplicateChunk>)
  {
    chunks != [] && chunks[0].operation != DeleteOp ==> chunks[0].version >= 1
  }

  lemma RoleConsistent(s: Server, p: bool)
    requires Consistent(s)
    ensures Consistent(s.(primary := p))
  {
  }

  lemma ReplicaConsistent(s: Server, chunks: seq<ReplicateChunk>, eof: bool)
    requires Consistent(s) && Numbered(chunks)
    ensures Consistent(Replicated(s, chunks, eof))
  {
    hide ConcatReplica;
  }

  // The same server without a table of replies.
  function ApplyPlain(s: Server, e: Event): Server
  {
    match e
    case Call(r) => if Refused(s, r) then s else Execute(s, r).0
    case _ => Apply(s, e)
  }

  function RunPlain(s: Server, events: seq<Event>): Server
  {
    if events == [] then s else ApplyPlain(RunPlain(s, events[..|events| - 1]), events[|events| - 1])
  }

  function WithoutTable(s: Server): Server
  {
    s.(dedup := map[])
  }

  // A call that is executed and whose reply is recorded.
  predicate Executed(s: Server, e: Event)
  {
    e.Call? && !Refused(s, e.request) && !Recorded(s, e.request) && Succeeds(s, e.request)
  }

  // The history with every call removed that was refused, failed, or answered from the table.
  function Effective(s: Server, events: seq<Event>): seq<Event>
  {
    if events == [] then []
    else
      var front, e := events[..|events| - 1], events[|events| - 1];
      if e.Call? && !Executed(Run(s, front), e) then Effective(s, front) else Effective(s, front) + [e]
  }

  ghost predicate DistinctKeys(events: seq<Event>)
  {
    && (forall i :: 0 <= i < |events| && events[i].Call? ==> Key(events[i].request).Some?)
    && forall i, j :: 0 <= i < j < |events| && events[i].Call? && events[j].Call?
         ==> Key(events[i].request) != Key(events[j].request)
  }

  ghost predicate KeysRecorded(events: seq<Event>, table: map<string, Reply>)
  {
    forall i :: 0 <= i < |events| && events[i].Call? ==>
      Key(events[i].request).Some? && Key(events[i].request).value in table
  }

  lemma UneffectiveCallsDoNothing(s: Server, r: Request)
    requires !Executed(s, Call(r))
    ensures Handle(s, r).0 == s
  {
    hide DedupKey, Concat;
  }

  lemma ExecutedCallRecords(s: Server, r: Request)
    requires Executed(s, Call(r))
    ensures Key(r).Some? && Handle(s, r).1.Replied?
    ensures Handle(s, r).0.dedup == s.dedup[Key(r).value := Handle(s, r).1.reply]
    ensures WithoutTable(Handle(s, r).0) == ApplyPlain(WithoutTable(s), Call(r))
  {
    hide DedupKey, Concat;
  }

  // However often requests are retried, the files, versions and handles are those of a server
  // without a table on which each key is executed at most once.
  lemma {:induction false} ExactlyOnce(s: Server, events: seq<Event>)
    requires s.dedup == map[]
    ensures WithoutTable(Run(s, events)) == RunPlain(WithoutTable(s), Effective(s, events))
    ensures DistinctKeys(Effective(s, events))
    ensures KeysRecorded(Effective(s, events), Run(s, events).dedup)
  {
    hide Handle, Replicated, Key, Executed, Execute, Refused;
    if events == [] {
    } else {
      var front, e := events[..|events| - 1], events[|events| - 1];
      var before, kept := Run(s, front), Effective(s, front);
      ExactlyOnce(s, front);
      assert (kept + [e])[..|kept|] == kept;
      match e {
        case Call(r) =>
          if Executed(before, e) {
            ExecutedCallRecords(before, r);
            FreshKey(before, r, kept);
          } else {
            UneffectiveCallsDoNothing(before, r);
          }
        case Role(p) =>
        case Replica(chunks, eof) =>
          ReplicaIgnoresTable(before, chunks, eof);
      }
    }
  }

  lemma ReplicaIgnoresTable(s: Server, chunks: seq<ReplicateChunk>, eof: bool)
    ensures WithoutTable(Replicated(s, chunks, eof)) == Replicated(WithoutTable(s), chunks, eof)
    ensures Replicated(s, chunks, eof).dedup == s.dedup
  {
    hide ReplicaFiles, ReplicaVersions;
  }

  lemma FreshKey(s: Server, r: Request, kept: seq<Event>)
    requires Executed(s, Call(r)) && KeysRecorded(kept, s.dedup)
    ensures forall i :: 0 <= i < |kept| && kept[i].Call? ==> Key(kept[i].request) != Key(r)
  {
    hide Key, Execute;
  }

  // A recorded reply stays recorded, so every later retry on a primary changes nothing and
  // gets the first reply again, whatever happened in between.
  lemma {:induction false} RetryReplaysFirstReply(s: Server, r: Request, between: seq<Event>)
    requires Executed(s, Call(r))
    ensures var later := Run(Handle(s, r).0, between);
      && Key(r).value in later.dedup && later.dedup[Key(r).value] == Handle(s, r).1.reply
      && (later.primary || r.OpenReq? ==> Handle(later, r) == (later, Handle(s, r).1))
  {
    hide Handle, Key, Executed, Run;
    ExecutedCallRecords(s, r);
    var start := Handle(s, r).0;
    ReplyMatches(s, r);
    TableKeeps(start, between, Key(r).value);
    var later := Run(start, between);
    if later.primary || r.OpenReq? {
      RecordedAnswer(later, r);
    }
  }

  lemma ReplyMatches(s: Server, r: Request)
    requires Executed(s, Call(r))
    ensures SameKind(r, Handle(s, r).1.reply)
  {
    hide DedupKey, Concat;
  }

  lemma RecordedAnswer(s: Server, r: Request)
    requires Recorded(s, r) && (s.primary || r.OpenReq?) && SameKind(r, s.dedup[Key(r).value])
    ensures Handle(s, r) == (s, Replied(s.dedup[Key(r).value]))
  {
  }

  lemma {:induction false} TableKeeps(s: Server, events: seq<Event>, key: string)
    requires key in s.dedup
    ensures key in Run(s, events).dedup && Run(s, events).dedup[key] == s.dedup[key]
  {
    hide Handle, Key, Executed, Replicated;
    if events == [] {
    } else {
      var front, e := events[..|events| - 1], events[|events| - 1];
      TableKeeps(s, front, key);
      var before := Run(s, front);
      match e {
        case Call(r) =>
          if Executed(before, e) {
            ExecutedCallRecords(before, r);
            NotRecorded(before, r);
          } else {
            UneffectiveCallsDoNothing(before, r);
          }
        case Role(p) =>
        case Replica(chunks, eof) =>
          ReplicaIgnoresTable(before, chunks, eof);
      }
    }
  }

  lemma NotRecorded(s: Server, r: Request)
    requires Executed(s, Call(r)) && Key(r).Some?
    ensures Key(r).value !in s.dedup
  {
  }

  // ---------- No handler panics ----------

  datatype Kind = Opens | Stores | Creates | Deletes

  function KindOf(r: Request): Kind
  {
    match r
    case OpenReq(_, _, _, _) => Opens
    case StoreReq(_, _) => Stores
    case CreateReq(_, _, _) => Creates
    case DeleteReq(_, _, _) => Deletes
  }

  function ReplyKind(p: Reply): Kind
  {
    match p
    case OpenReply(_, _) => Opens
    case StoreReply(_, _) => Stores
    case CreateReply(_, _) => Creates
    case DeleteReply(_) => Deletes
  }

  // Who sent a request, and its sequence number there.
  function Origin(r: Request): Option<(string, int)>
  {
    match r
    case OpenReq(_, _, c, q) => Some((c, q))
    case StoreReq(chunks, _) => if chunks == [] then None else Some((chunks[0].clientId, chunks[0].reqSeq))
    case CreateReq(_, c, q) => Some((c, q))
    case DeleteReq(_, c, q) => Some((c, q))
  }

  // Every client uses a sequence number for one kind of operation only.
  ghost predicate OneUsePerNumber(events: seq<Event>)
  {
    forall i, j :: 0 <= i < |events| && 0 <= j < |events| && events[i].Call? && events[j].Call?
      && Origin(events[i].request).Some? && Origin(events[i].request) == Origin(events[j].request)
      ==> KindOf(events[i].request) == KindOf(events[j].request)
  }

  // Call i was executed, and this is its key and the kind of its reply.
  ghost predicate AnsweredAt(s: Server, events: seq<Event>, i: int, key: string, reply: Reply)
  {
    && 0 <= i < |events| && events[i].Call? && Executed(Run(s, events[..i]), events[i])
    && Key(events[i].request) == Some(key) && KindOf(events[i].request) == ReplyKind(reply)
  }

  // Every recorded reply answers one of the executed calls.
  ghost predicate TableFrom(s: Server, events: seq<Event>, table: map<string, Reply>)
  {
    forall k :: k in table ==> exists i :: AnsweredAt(s, events, i, k, table[k])
  }

  lemma {:induction false} TableComesFromCalls(s: Server, events: seq<Event>)
    requires s.dedup == map[]
    ensures TableFrom(s, events, Run(s, events).dedup)
  {
    hide Handle, Key, Executed, Replicated;
    if events == [] {
    } else {
      var front, e := events[..|events| - 1], events[|events| - 1];
      TableComesFromCalls(s, front);
      var before, after := Run(s, front), Run(s, events);
      match e {
        case Call(r) =>
          if Executed(before, e) {
            ExecutedCallRecords(before, r);
            ReplyMatches(before, r);
          } else {
            UneffectiveCallsDoNothing(before, r);
          }
        case Role(p) =>
        case Replica(chunks, eof) =>
          ReplicaIgnoresTable(before, chunks, eof);
      }
      forall k | k in after.dedup
        ensures exists i :: AnsweredAt(s, events, i, k, after.dedup[k])
      {
        if e.Call? && Executed(before, e) && Key(e.request) == Some(k) {
          assert AnsweredAt(s, events, |events| - 1, k, after.dedup[k]);
        } else {
          assert k in before.dedup && before.dedup[k] == after.dedup[k];
          var i :| AnsweredAt(s, front, i, k, before.dedup[k]);
          assert events[..i] == front[..i];
          assert AnsweredAt(s, events, i, k, after.dedup[k]);
        }
      }
    }
  }

  lemma {:induction false} RunInTwoParts(s: Server, first: seq<Event>, second: seq<Event>)
    ensures Run(s, first + second) == Run(Run(s, first), second)
  {
    hide Apply;
    if second == [] {
      assert first + second == first;
    } else {
      RunInTwoParts(s, first, second[..|second| - 1]);
      assert (first + second)[..|first + second| - 1] == first + second[..|second| - 1];
    }
  }

  // The reply of an executed call is still in the table at the end.
  lemma StillRecorded(s: Server, events: seq<Event>, i: nat)
    requires i < |events| && events[i].Call? && Executed(Run(s, events[..i]), events[i])
    ensures var k, table := Key(events[i].request), Run(s, events).dedup;
      k.Some? && k.value in table && KindOf(events[i].request) == ReplyKind(table[k.value])
  {
    hide Handle, Key, Executed, Run;
    var before, r := Run(s, events[..i]), events[i].request;
    var after := Handle(before, r).0;
    ExecutedCallRecords(before, r);
    ReplyMatches(before, r);
    OneMoreEvent(s, events, i);
    assert events == events[..i + 1] + events[i + 1..];
    RunInTwoParts(s, events[..i + 1], events[i + 1..]);
    TableKeeps(after, events[i + 1..], Key(r).value);
    SameKindIsKind(r, Handle(before, r).1.reply);
  }

  lemma OneMoreEvent(s: Server, events: seq<Event>, i: nat)
    requires i < |events| && events[i].Call?
    ensures Run(s, events[..i + 1]) == Handle(Run(s, events[..i]), events[i].request).0
  {
    assert events[..i + 1][..i] == events[..i];
  }

  lemma SameKindIsKind(r: Request, reply: Reply)
    ensures SameKind(r, reply) <==> KindOf(r) == ReplyKind(reply)
  {
  }

  // An executed call with the origin of r, but of another kind.
  ghost predicate Clash(s: Server, events: seq<Event>, i: int, r: Request)
  {
    && 0 <= i < |events| && events[i].Call? && Executed(Run(s, events[..i]), events[i])
    && Origin(events[i].request) == Origin(r) && KindOf(events[i].request) != KindOf(r)
  }

  // A request panics exactly when the same client used its sequence number before for an
  // executed operation of another kind, and the request is not refused.
  lemma PanicsIffNumberReused(s: Server, events: seq<Event>, r: Request)
    requires s.dedup == map[]
    ensures Handle(Run(s, events), r).1 == Panicked <==>
      !Refused(Run(s, events), r) && exists i :: Clash(s, events, i, r)
  {
    hide Handle, Key, Executed, Run;
    var now := Run(s, events);
    PanicMeansOtherKind(now, r);
    TableComesFromCalls(s, events);
    if !Refused(now, r) && Recorded(now, r) {
      var k := Key(r).value;
      var i :| AnsweredAt(s, events, i, k, now.dedup[k]);
      SameKeySameOrigin(events[i].request, r);
      if KindOf(r) != ReplyKind(now.dedup[k]) { assert Clash(s, events, i, r); }
    }
    if i :| Clash(s, events, i, r) {
      StillRecorded(s, events, i);
      SameOriginSameKey(events[i].request, r);
    }
  }

  lemma PanicMeansOtherKind(s: Server, r: Request)
    ensures Handle(s, r).1 == Panicked <==>
      !Refused(s, r) && Recorded(s, r) && KindOf(r) != ReplyKind(s.dedup[Key(r).value])
  {
    hide Execute, Succeeds, Key;
    ExecuteDoesNotPanic(s, r);
    if Recorded(s, r) { SameKindIsKind(r, s.dedup[Key(r).value]); }
  }

  lemma ExecuteDoesNotPanic(s: Server, r: Request)
    ensures Execute(s, r).1 != Panicked
  {
    hide Concat;
  }

  lemma SameOriginSameKey(a: Request, b: Request)
    requires Origin(a) == Origin(b)
    ensures Key(a) == Key(b)
  {
    hide DedupKey;
  }

  lemma SameKeySameOrigin(a: Request, b: Request)
    requires Key(a).Some? && Key(a) == Key(b)
    ensures Origin(a).Some? && Origin(a) == Origin(b)
  {
    hide DedupKey;
    var x, y := Origin(a).value, Origin(b).value;
    assert Key(a) == Some(DedupKey(x.0, x.1)) && Key(b) == Some(DedupKey(y.0, y.1));
    DedupKeyInjective(x.0, x.1, y.0, y.1);
  }

  // If clients keep to one use per number, no handler ever panics.
  lemma NoPanic(s: Server, events: seq<Event>, r: Request)
    requires s.dedup == map[] && OneUsePerNumber(events + [Call(r)])
    ensures Handle(Run(s, events), r).1 != Panicked
  {
    hide Handle, Execute, Succeeds;
    PanicsIffNumberReused(s, events, r);
    var all := events + [Call(r)];
    assert all[|events|] == Call(r);
    forall i
      ensures !Clash(s, events, i, r)
    {
      if Clash(s, events, i, r) {
        assert all[i] == events[i];
        ExecutedHasOrigin(Run(s, events[..i]), events[i].request);
      }
    }
  }

  lemma ExecutedHasOrigin(s: Server, r: Request)
    requires Executed(s, Call(r))
    ensures Origin(r).Some?
  {
    hide Execute;
  }

  // ---------- Clients that count ----------

  // Every client logs its requests, and the k-th of them carries number k + 1; a store without
  // bytes carries none.
  ghost predicate Counted(logs: map<string, seq<Request>>)
  {
    forall c, k :: c in logs && 0 <= k < |logs[c]| ==>
      Origin(logs[c][k]) == None || Origin(logs[c][k]) == Some((c, k + 1))
  }

  // What reaches the server of a request: all of it, or the first chunks of a store.
  predicate PartOf(got: Request, sent: Request)
  {
    got == sent || (got.StoreReq? && sent.StoreReq? && !got.eof && got.chunks <= sent.chunks)
  }

  predicate LoggedAt(logs: map<string, seq<Request>>, r: Request, c: string, k: int)
  {
    c in logs && 0 <= k < |logs[c]| && PartOf(r, logs[c][k])
  }

  // All calls of a history are logged requests, sent any number of times and in any order.
  ghost predicate Logged(logs: map<string, seq<Request>>, events: seq<Event>)
  {
    forall i :: 0 <= i < |events| && events[i].Call? ==> exists c, k :: LoggedAt(logs, events[i].request, c, k)
  }

  lemma LoggedKind(logs: map<string, seq<Request>>, r: Request, c: string, k: int)
    requires Counted(logs) && LoggedAt(logs, r, c, k) && Origin(r).Some?
    ensures Origin(r) == Some((c, k + 1)) && KindOf(r) == KindOf(logs[c][k])
  {
    assert Origin(r) == Origin(logs[c][k]);
  }

  // Counting gives every number one use.
  lemma CountingGivesOneUse(logs: map<string, seq<Request>>, events: seq<Event>)
    requires Counted(logs) && Logged(logs, events)
    ensures OneUsePerNumber(events)
  {
    hide Counted, Logged, LoggedAt, Origin, KindOf;
    forall i, j | 0 <= i < |events| && 0 <= j < |events| && events[i].Call? && events[j].Call?
      && Origin(events[i].request).Some? && Origin(events[i].request) == Origin(events[j].request)
      ensures KindOf(events[i].request) == KindOf(events[j].request)
    {
      var c, k := WhereLogged(logs, events, i);
      var d, l := WhereLogged(logs, events, j);
      LoggedKind(logs, events[i].request, c, k);
      LoggedKind(logs, events[j].request, d, l);
    }
  }

  lemma WhereLogged(logs: map<string, seq<Request>>, events: seq<Event>, i: nat) returns (c: string, k: int)
    requires Logged(logs, events) && i < |events| && events[i].Call?
    ensures LoggedAt(logs, events[i].request, c, k)
  {
    c, k :| LoggedAt(logs, events[i].request, c, k);
  }

  // So a server whose clients count their requests never panics.
  lemma CountingClientsNeverPanic(s: Server, logs: map<string, seq<Request>>, events: seq<Event>, r: Request)
    requires s.dedup == map[] && Counted(logs) && Logged(logs, events + [Call(r)])
    ensures Handle(Run(s, events), r).1 != Panicked
  {
    CountingGivesOneUse(logs, events + [Call(r)]);
    NoPanic(s, events, r);
  }

  // ---------- Retries across a failover ----------

  // Call i was executed by this server under the key of r.
  ghost predicate ExecutedAs(s: Server, events: seq<Event>, i: int, r: Request)
  {
    && 0 <= i < |events| && events[i].Call? && Executed(Run(s, events[..i]), events[i])
    && Key(events[i].request) == Key(r)
  }

  // The table of replies is not replicated: a server answers a retry from it exactly when it
  // executed the request itself.
  lemma RecordedIffExecutedHere(s: Server, events: seq<Event>, r: Request)
    requires s.dedup == map[]
    ensures Recorded(Run(s, events), r) <==> exists i :: ExecutedAs(s, events, i, r)
  {
    hide Handle, Key, Executed, Run;
    TableComesFromCalls(s, events);
    if Recorded(Run(s, events), r) {
      var k := Key(r).value;
      var i :| AnsweredAt(s, events, i, k, Run(s, events).dedup[k]);
      assert ExecutedAs(s, events, i, r);
    }
    if i :| ExecutedAs(s, events, i, r) {
      StillRecorded(s, events, i);
    }
  }

  // So on a promoted server that holds a store by replication only, a retried store is executed
  // a second time and returns the next version; a retried create is refused; a retried delete
  // is harmless.
  lemma RetryOnPromotedServer(s: Server, events: seq<Event>, path: string, c: string, q: int, copy: Copy)
    requires s.dedup == map[] && Run(s, events).primary && CopyOf(Run(s, events), path) == copy
    requires forall i :: !ExecutedAs(s, events, i, DeleteReq(path, c, q))
    ensures copy.Copy? && copy.content != [] ==>
      var p := Run(s, events);
      var (p', out) := Handle(p, StoreReq(StoreFrames(path, c, q, Pieces(copy.content, CHUNK_SIZE)), true));
      out == Replied(StoreReply(copy.version + 1, "")) && CopyOf(p', path) == copy.(version := copy.version + 1)
    ensures copy.Copy? ==>
      Handle(Run(s, events), CreateReq(path, c, q)) == (Run(s, events), Replied(CreateReply(0, EXISTS)))
    ensures copy.Missing? ==>
      var (p', out) := Handle(Run(s, events), DeleteReq(path, c, q));
      p'.files == Run(s, events).files && out == Replied(DeleteReply(""))
  {
    hide DedupKey, Run, Executed, StoreFrames, Pieces;
    RecordedIffExecutedHere(s, events, DeleteReq(path, c, q));
    if copy.Copy? { StoreDelivers(Run(s, events), path, c, q, copy.content); }
  }

  // End to end: a store whose reply is lost with the primary, repeated on the promoted backup.
  lemma StoreRunsTwiceAcrossFailover(s: Server, backup: Server, path: string, c: string, q: int, content: Bytes)
    requires s.primary && DedupKey(c, q) !in s.dedup && DedupKey(c, q) !in backup.dedup && content != []
    ensures var pieces := Pieces(content, CHUNK_SIZE);
      var r := StoreReq(StoreFrames(path, c, q, pieces), true);
      var (s', first) := Handle(s, r);
      var v := VersionOf(CopyOf(s', path));
      var promoted := Replicated(backup, ReplicateFrames(path, v, pieces), true).(primary := true);
      var (after, second) := Handle(promoted, r);
      && first == Replied(StoreReply(v, "")) && CopyOf(promoted, path) == Copy(content, v)
      && second == Replied(StoreReply(v + 1, "")) && CopyOf(after, path) == Copy(content, v + 1)
  {
    hide Handle, Replicated, DedupKey, StoreFrames, ReplicateFrames, Pieces;
    StoreDelivers(s, path, c, q, content);
    var s' := Handle(s, StoreReq(StoreFrames(path, c, q, Pieces(content, CHUNK_SIZE)), true)).0;
    var v := VersionOf(CopyOf(s', path));
    ReplicationDelivers(backup, path, v, content, true);
    var promoted := Replicated(backup, ReplicateFrames(path, v, Pieces(content, CHUNK_SIZE)), true).(primary := true);
    StoreDelivers(promoted, path, c, q, content);
  }

  // ---------- Backups ----------

  // A server that is not primary answers every mutation with a refusal of its kind and changes
  // nothing.
  lemma BackupRefusesMutations(s: Server, r: Request)
    requires !s.primary
    ensures r.StoreReq? ==> Handle(s, r) == (s, Replied(StoreReply(0, NOT_PRIMARY)))
    ensures r.CreateReq? ==> Handle(s, r) == (s, Replied(CreateReply(0, NOT_PRIMARY)))
    ensures r.DeleteReq? ==> Handle(s, r) == (s, Replied(DeleteReply(NOT_PRIMARY)))
    ensures r.OpenReq? ==> Handle(s, r).0.files == s.files && Handle(s, r).0.versions == s.versions
  {
    hide DedupKey;
  }

  // A primary refuses nothing for its role.
  lemma PrimaryIsNotRefused(s: Server, r: Request)
    requires s.primary && s.dedup == map[]
    ensures Handle(s, r).1.Replied? ==> Handle(s, r).1.reply.error != NOT_PRIMARY
  {
    hide DedupKey, Concat;
  }

  function ReplicasOf(events: seq<Event>): seq<Event>
  {
    if events == [] then []
    else
      var front, e := ReplicasOf(events[..|events| - 1]), events[|events| - 1];
      if e.Replica? then front + [e] else front
  }

  // The files and versions of a server that is never primary are what the replicated operations
  // alone make of them.
  lemma {:induction false} BackupChangesByReplicasOnly(s: Server, events: seq<Event>)
    requires !s.primary && forall i :: 0 <= i < |events| && events[i].Role? ==> !events[i].primary
    ensures !Run(s, events).primary
    ensures Run(s, events).files == Run(s, ReplicasOf(events)).files
    ensures Run(s, events).versions == Run(s, ReplicasOf(events)).versions
  {
    hide Handle, ReplicaFiles, ReplicaVersions;
    if events == [] {
    } else {
      var front, e := events[..|events| - 1], events[|events| - 1];
      BackupChangesByReplicasOnly(s, front);
      match e {
        case Call(r) =>
          BackupRefusesMutations(Run(s, front), r);
          OpenKeepsRole(Run(s, front), r);
        case Role(p) =>
        case Replica(chunks, eof) =>
          assert ReplicasOf(events)[..|ReplicasOf(events)| - 1] == ReplicasOf(front);
      }
    }
  }

  lemma OpenKeepsRole(s: Server, r: Request)
    ensures Handle(s, r).0.primary == s.primary
  {
    hide DedupKey, Concat;
  }

  // ---------- What is recorded, and what is not ----------

  // A request that is executed is recorded with its reply exactly when it succeeds; a reply with
  // an error leaves the server as it was.
  lemma RecordedIffSuccessful(s: Server, r: Request)
    requires (s.primary || r.OpenReq?) && !Recorded(s, r) && Handle(s, r).1.Replied?
    ensures var (s', out) := Handle(s, r);
      && (out.reply.error != "" ==> s' == s)
      && (out.reply.error == "" ==>
            Key(r).Some? && Key(r).value in s'.dedup && s'.dedup[Key(r).value] == out.reply)
  {
    hide DedupKey, Concat;
  }

  // ---------- Handles ----------

  ghost predicate HandlesBounded(s: Server)
  {
    forall h :: h in s.handles ==> h <= s.nextHandle
  }

  lemma HandlesGrow(s: Server, r: Request)
    requires HandlesBounded(s)
    ensures HandlesBounded(Handle(s, r).0) && s.nextHandle <= Handle(s, r).0.nextHandle
  {
    hide DedupKey, Concat;
  }

  lemma {:induction false} HandlesGrowOverTime(s: Server, events: seq<Event>)
    requires HandlesBounded(s)
    ensures HandlesBounded(Run(s, events)) && s.nextHandle <= Run(s, events).nextHandle
  {
    hide Handle, ReplicaFiles, ReplicaVersions;
    if events != [] {
      var front, e := events[..|events| - 1], events[|events| - 1];
      HandlesGrowOverTime(s, front);
      if e.Call? { HandlesGrow(Run(s, front), e.request); }
    }
  }

  // The handle an executed open or create gives out.
  predicate GivesHandle(r: Request)
  {
    r.OpenReq? || r.CreateReq?
  }

  function HandleOf(p: Reply): nat
  {
    match p
    case OpenReply(h, _) => h
    case CreateReply(h, _) => h
    case _ => 0
  }

  // It is new, it is entered with the path and mode of the request, and the other handles stay.
  lemma NewHandleIsFresh(s: Server, r: Request)
    requires HandlesBounded(s) && Executed(s, Call(r)) && GivesHandle(r)
    ensures var (s', out) := Handle(s, r);
      var write := if r.OpenReq? then r.write else true;
      && out.Replied? && HandleOf(out.reply) > s.nextHandle && HandleOf(out.reply) !in s.handles
      && s'.handles == s.handles[HandleOf(out.reply) := FileHandle(r.path, write)]
      && s'.nextHandle >= HandleOf(out.reply)
  {
    hide DedupKey;
  }

  // No two executed calls of a history give out the same handle.
  lemma HandlesAreNeverReused(s: Server, events: seq<Event>, i: nat, j: nat)
    requires HandlesBounded(s) && i < j < |events|
    requires events[i].Call? && GivesHandle(events[i].request) && Executed(Run(s, events[..i]), events[i])
    requires events[j].Call? && GivesHandle(events[j].request) && Executed(Run(s, events[..j]), events[j])
    ensures var first, second := Handle(Run(s, events[..i]), events[i].request).1,
                                 Handle(Run(s, events[..j]), events[j].request).1;
      first.Replied? && second.Replied? && HandleOf(first.reply) < HandleOf(second.reply)
  {
    hide Handle, Executed, Run, HandlesBounded;
    HandlesGrowOverTime(s, events[..i]);
    NewHandleIsFresh(Run(s, events[..i]), events[i].request);
    HandlesGrow(Run(s, events[..i]), events[i].request);
    OneMoreEvent(s, events, i);
    var middle := events[i + 1..j];
    assert events[..j] == events[..i + 1] + middle;
    RunInTwoParts(s, events[..i + 1], middle);
    HandlesGrowOverTime(Run(s, events[..i + 1]), middle);
    NewHandleIsFresh(Run(s, events[..j]), events[j].request);
  }

  // ---------- Versions ----------

  // The version of a stored file is the one of its copy; an input file always has version 1, and
  // a missing file version 0.
  lemma VersionMeans(s: Server, path: string)
    ensures path in s.inputs ==> Version(s, path) == 1
    ensures path !in s.inputs ==> Version(s, path) == VersionOf(CopyOf(s, path))
    ensures path !in s.inputs && path !in s.files ==> Version(s, path) == 0
  {
  }
}
