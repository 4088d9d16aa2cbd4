/**
 The client library as an object: its cache of whole files, its open handles, and the calls it
 makes to the server. Every call is attempted several times; an attempt may not arrive, break
 off, lose its reply, or succeed. The cache stays coherent over any sequence of calls, and what
 a file stored under the name of an input file looks like afterwards is the last section.
 */
module AfsClient {
  import opened Sequences
  import opened Handler

  const MAX_RETRIES := 8

  datatype OpenEntry = OpenEntry(path: string, dirty: bool, offset: nat, serverHandle: nat)

  // The file a server serves under a path.
  function Content(s: Server, path: string): Bytes
    requires path in s.inputs || path in s.files
  {
    if path in s.inputs then s.inputs[path] else s.files[path]
  }

  // Writing at an offset of a file; a gap between its end and the offset is filled with zeros.
  function Overwrite(s: Bytes, offset: nat, data: Bytes): Bytes
  {
    if data == [] then s
    else
      var base := if offset <= |s| then s else s + seq(offset - |s|, i => 0);
      base[..offset] + data + if offset + |data| < |base| then base[offset + |data|..] else []
  }

  // Byte by byte: the data where it was written, what was there elsewhere, and zeros in a gap.
  lemma OverwriteAt(s: Bytes, offset: nat, data: Bytes, i: nat)
    requires i < |Overwrite(s, offset, data)|
    ensures Overwrite(s, offset, data)[i] ==
      if offset <= i < offset + |data| then data[i - offset] else if i < |s| then s[i] else 0
  {
  }

  lemma OverwriteLength(s: Bytes, offset: nat, data: Bytes)
    ensures |Overwrite(s, offset, data)| ==
      if data == [] || offset + |data| < |s| then |s| else offset + |data|
  {
  }

  lemma RetriesAreHarmless(s: Server, r: Request)
    requires s.primary && !Recorded(s, r)
    ensures var (s', out) := Handle(s, r);
      out.Replied? && Succeeds(s, r) ==> Handle(s', r) == (s', out)
    ensures !Succeeds(s, r) ==> Handle(s, r).0 == s
  {
    hide DedupKey, Concat;
    if Succeeds(s, r) {
      RetryReplaysFirstReply(s, r, []);
      assert Run(Handle(s, r).0, []) == Handle(s, r).0;
      ExecuteKeepsRole(s, r);
    } else {
      UneffectiveCallsDoNothing(s, r);
    }
  }

  lemma ExecuteKeepsRole(s: Server, r: Request)
    ensures Handle(s, r).0.primary == s.primary && Handle(s, r).0.inputs == s.inputs
  {
    hide DedupKey, Concat;
  }

  // ---------- Coherence of a cache ----------

  // A copy recorded at the version the server has now is what the server has now.
  predicate Agrees(s: Server, path: string, version: nat, data: Bytes)
  {
    (path in s.inputs || path in s.files) && version == Version(s, path) ==> data == Content(s, path)
  }

  // Every cached file without unsaved writes agrees with the server.
  ghost predicate Coherent(s: Server, cached: map<string, nat>, local: map<string, Bytes>, tainted: set<string>)
  {
    && cached.Keys <= local.Keys
    && forall p :: p in cached && p !in tainted ==> p in local && Agrees(s, p, cached[p], local[p])
  }

  // A server that differs from another in at most one stored path.
  predicate SameElsewhere(s: Server, s': Server, path: string)
  {
    && s'.inputs == s.inputs && s'.files - {path} == s.files - {path} && s'.versions - {path} == s.versions - {path}
  }

  lemma AgreesElsewhere(s: Server, s': Server, path: string, p: string, version: nat, data: Bytes)
    requires SameElsewhere(s, s', path) && p != path
    ensures Agrees(s', p, version, data) <==> Agrees(s, p, version, data)
  {
    assert p in s.files <==> p in s.files - {path};
    assert p in s'.files <==> p in s'.files - {path};
    assert p in s.versions <==> p in s.versions - {path};
    assert p in s'.versions <==> p in s'.versions - {path};
    if p in s.files { assert s'.files[p] == (s'.files - {path})[p] == s.files[p]; }
    if p in s.versions { assert s'.versions[p] == (s'.versions - {path})[p] == s.versions[p]; }
  }

  // A call that touches one path keeps a cache coherent if that path is tainted, no longer
  // cached, or agrees.
  lemma StaysCoherent(s: Server, s': Server, path: string,
                      cached: map<string, nat>, local: map<string, Bytes>, tainted: set<string>,
                      cached': map<string, nat>, local': map<string, Bytes>, tainted': set<string>)
    requires Coherent(s, cached, local, tainted) && SameElsewhere(s, s', path)
    requires cached' - {path} == cached - {path} && local' - {path} == local - {path}
    requires tainted' - {path} == tainted - {path} && (path in cached' ==> path in local')
    requires path in cached' && path !in tainted' ==> Agrees(s', path, cached'[path], local'[path])
    ensures Coherent(s', cached', local', tainted')
  {
    forall p | p in cached' && p != path
      ensures p in local' && (p !in tainted' ==> Agrees(s', p, cached'[p], local'[p]))
    {
      assert p in cached' - {path} && p in local - {path};
      assert cached'[p] == (cached' - {path})[p] == cached[p];
      assert local'[p] == (local' - {path})[p] == local[p];
      if p !in tainted' {
        assert p !in tainted' - {path};
        assert p !in tainted;
        AgreesElsewhere(s, s', path, p, cached[p], local[p]);
      }
    }
  }

  // What becomes of one attempt to send a request.
  datatype Fate = Unreached | BrokenOff(chunks: nat) | ReplyLost | Answered

  predicate Reached(fates: seq<Fate>)
  {
    exists i :: 0 <= i < |fates| && (fates[i].ReplyLost? || fates[i].Answered?)
  }

  predicate GotReply(fates: seq<Fate>)
  {
    exists i :: 0 <= i < |fates| && fates[i].Answered?
  }

  // An attempt with a reply among them; an attempt that arrives among them.
  lemma FatesMean(fates: seq<Fate>)
    ensures GotReply(fates) <==> Answered in fates
    ensures Reached(fates) <==> Answered in fates || ReplyLost in fates
  {
  }

  lemma OneMoreFate(fates: seq<Fate>, i: nat)
    requires i < |fates|
    ensures Reached(fates[..i + 1]) <==> Reached(fates[..i]) || fates[i].ReplyLost? || fates[i].Answered?
    ensures GotReply(fates[..i + 1]) <==> GotReply(fates[..i]) || fates[i].Answered?
  {
    var before, now := fates[..i], fates[..i + 1];
    assert now[i] == fates[i];
    if Reached(before) {
      var j :| 0 <= j < i && (before[j].ReplyLost? || before[j].Answered?);
      assert now[j] == before[j];
    }
    if GotReply(before) {
      var j :| 0 <= j < i && before[j].Answered?;
      assert now[j] == before[j];
    }
  }

  lemma ReplyStays(fates: seq<Fate>, i: nat)
    requires i <= |fates|
    ensures GotReply(fates[..i]) ==> GotReply(fates) && Reached(fates[..i]) && Reached(fates)
  {
    if GotReply(fates[..i]) {
      var j :| 0 <= j < i && fates[..i][j].Answered?;
      assert fates[j].Answered?;
    }
  }

  class Client {
    const clientId: string
    const server: HandlerObject
    var reqSeq: int
    var cached: map<string, nat>
    var local: map<string, Bytes>
    var openFiles: map<nat, OpenEntry>
    var nextHandle: nat
    // Files with writes that were not stored, or that the server shadows by an input file.
    ghost var tainted: set<string>

    constructor (clientId: string, server: HandlerObject)
      ensures this.clientId == clientId && this.server == server && reqSeq == 0
      ensures cached == map[] && local == map[] && openFiles == map[] && nextHandle == 0 && tainted == {}
    {
      this.clientId, this.server := clientId, server;
      reqSeq, cached, local, openFiles, nextHandle, tainted := 0, map[], map[], map[], 0, {};
    }

    // Handles are fresh, the cache is coherent, and the server has not seen any sequence number
    // that this client has yet to use.
    ghost predicate Valid()
      reads this, server
    {
      && (forall h :: h in openFiles ==> 1 <= h <= nextHandle)
      && Coherent(server.Now(), cached, local, tainted)
      && UnusedFrom(clientId, reqSeq, server.dedupTable)
      && Consistent(server.Now()) && server.primary
    }

    // Bookkeeping of the cache manager: a new clean handle.
    method OpenEntryFor(path: string, serverHandle: nat) returns (handle: nat)
      modifies `openFiles, `nextHandle
      ensures handle == nextHandle == old(nextHandle) + 1
      ensures openFiles == old(openFiles)[handle := OpenEntry(path, false, 0, serverHandle)]
    {
      nextHandle := nextHandle + 1;
      handle := nextHandle;
      openFiles := openFiles[handle := OpenEntry(path, false, 0, serverHandle)];
    }

    // Opens a file: the cached copy if the server confirms its version, else a fetched one.
    // Without unsaved writes this is the server's content, whatever calls came before. The call,
    // the question for the version and the fetch may all fail or be repeated.
    method Open(path: string, write: bool, fates: seq<Fate>, asked: bool, fetches: seq<Fate>)
      returns (handle: Option<nat>)
      requires Valid() && |fates| == |fetches| == MAX_RETRIES
      modifies this, server
      ensures Valid()
      ensures server.files == old(server.files) && server.versions == old(server.versions)
      ensures var found := path in server.inputs || path in server.files;
        handle.Some? <==> found && GotReply(fates) && ((asked && old(Confirmed(path))) || GotReply(fetches))
      ensures handle.Some? ==>
        && handle.value !in old(openFiles)
        && (exists h :: openFiles == old(openFiles)[handle.value := OpenEntry(path, false, 0, h)])
        && path in local && local == old(local)[path := local[path]]
        && path in cached && cached == old(cached)[path := cached[path]]
        && (path !in old(tainted) ==> local[path] == Content(server.Now(), path) && tainted == old(tainted))
        && var kept := asked && old(Confirmed(path));
           && (path in old(tainted) ==> tainted == if kept then old(tainted) else old(tainted) - {path})
           && local[path] == if kept then old(local)[path] else Content(server.Now(), path)
      ensures handle.None? ==>
        local == old(local) && cached == old(cached) && openFiles == old(openFiles) && tainted == old(tainted)
    {
      hide Handle, DedupKey, Coherent, Consistent, Reached, GotReply;
      reqSeq := reqSeq + 1;
      ghost var before := server.Now();
      OpenOnServer(before, path, write, clientId, reqSeq);
      var reply := CallUntilAnswered(OpenReq(path, write, clientId, reqSeq), fates);
      UnusedStayUnused(clientId, before.dedup, server.dedupTable, reqSeq);
      SameServer(before, server.Now(), cached, local, tainted);
      if reply.None? || reply.value.error != "" {
        return None;
      }
      var ok := Refresh(path, asked, fetches);
      if !ok {
        return None;
      }
      var h := OpenEntryFor(path, reply.value.handle);
      handle := Some(h);
    }

    // The server has the version that is recorded for the local copy.
    ghost predicate Confirmed(path: string)
      reads this, server
    {
      path in cached && cached[path] == Version(server.Now(), path)
    }

    // The cached copy if the server confirms its version, else a fetched one. A fetch that
    // breaks off is repeated.
    method Refresh(path: string, asked: bool, fetches: seq<Fate>) returns (ok: bool)
      requires path in server.inputs || path in server.files
      requires Coherent(server.Now(), cached, local, tainted) && Consistent(server.Now()) && |fetches| == MAX_RETRIES
      modifies `local, `cached, `tainted
      ensures Coherent(server.Now(), cached, local, tainted)
      ensures var kept := asked && old(Confirmed(path));
        && ok == (kept || GotReply(fetches))
        && (!ok ==> local == old(local) && cached == old(cached) && tainted == old(tainted))
        && (ok ==>
              && path in local && local == old(local)[path := local[path]]
              && path in cached && cached == old(cached)[path := cached[path]]
              && (path !in old(tainted) ==> local[path] == Content(server.Now(), path) && tainted == old(tainted))
              && (path in old(tainted) ==> tainted == if kept then old(tainted) else old(tainted) - {path})
              && local[path] == if kept then old(local)[path] else Content(server.Now(), path))
    {
      if path in cached && asked {
        var isValid, _ := server.TestAuth(path, cached[path]);
        if isValid {
          assert local == local[path := local[path]] && cached == cached[path := cached[path]];
          return true;
        }
      }
      hide Reached, GotReply, Coherent;
      var fetched, fetchVersion;
      ok, fetched, fetchVersion := FetchUntilDone(path, fetches);
      if !ok {
        return;
      }
      FetchedCoherent(server.Now(), path, cached, local, tainted, fetchVersion);
      local := local[path := fetched];
      cached := cached[path := fetchVersion];
      tainted := tainted - {path};
    }

    // The retry loop of a fetch; the version seen on a chunk outlives the attempt.
    method FetchUntilDone(path: string, fetches: seq<Fate>) returns (ok: bool, fetched: Bytes, fetchVersion: nat)
      requires path in server.inputs || path in server.files
      requires |fetches| == MAX_RETRIES
      ensures ok == GotReply(fetches)
      ensures ok ==>
        && fetched == Content(server.Now(), path)
        && fetchVersion == if fetched == [] then 0 else Version(server.Now(), path)
    {
      hide Reached, GotReply, Pieces, Flatten;
      ok, fetched, fetchVersion := false, [], 0;
      ghost var content := Content(server.Now(), path);
      PiecesRebuild(content, CHUNK_SIZE);
      NoPieces(content, CHUNK_SIZE);
      NoFates(fetches);
      var attempt := 0;
      while attempt < MAX_RETRIES && !ok
        invariant 0 <= attempt <= MAX_RETRIES && ok == GotReply(fetches[..attempt])
        invariant fetchVersion == 0 || (content != [] && fetchVersion == Version(server.Now(), path))
        invariant ok ==> fetched == content && fetchVersion == if content == [] then 0 else Version(server.Now(), path)
      {
        OneMoreFate(fetches, attempt);
        var chunks, version := server.FetchFile(path);
        if fetches[attempt].BrokenOff? && chunks.value != [] {
          var n := if fetches[attempt].chunks < |chunks.value| then fetches[attempt].chunks else |chunks.value|;
          var _, seen := Receive(chunks.value[..n], version, fetchVersion);
          fetchVersion := seen;
        } else if fetches[attempt].Answered? {
          fetched, fetchVersion := Receive(chunks.value, version, fetchVersion);
          ok := true;
        }
        attempt := attempt + 1;
      }
      ReplyStays(fetches, attempt);
      assert fetches[..|fetches|] == fetches;
    }

    // Writing is local: the server learns of it only when the file is closed. The local file of
    // a deleted path is gone.
    method Write(handle: nat, data: Bytes) returns (ok: bool)
      requires Valid()
      modifies `local, `openFiles, `tainted
      ensures Valid() && ok == (handle in old(openFiles))
      ensures !ok ==> local == old(local) && openFiles == old(openFiles) && tainted == old(tainted)
      ensures ok ==>
        var e := old(openFiles)[handle];
        && (if e.path in old(local) then local == old(local)[e.path := Overwrite(old(local)[e.path], e.offset, data)]
            else local == old(local))
        && openFiles == old(openFiles)[handle := e.(dirty := true, offset := e.offset + |data|)]
        && tainted == old(tainted) + {e.path}
    {
      if handle !in openFiles {
        return false;
      }
      hide Coherent;
      var e := openFiles[handle];
      ghost var was, s := local, server.Now();
      if e.path in local {
        local := local[e.path := Overwrite(local[e.path], e.offset, data)];
      }
      StaysCoherent(s, s, e.path, cached, was, tainted, cached, local, tainted + {e.path});
      tainted := tainted + {e.path};
      openFiles := openFiles[handle := e.(dirty := true, offset := e.offset + |data|)];
      ok := true;
    }

    // Reads the next bytes of the local copy, at most max of them; none means its end.
    method Read(handle: nat, max: nat) returns (data: Option<Bytes>)
      requires Valid()
      modifies `openFiles
      ensures Valid() && (data.Some? <==> handle in old(openFiles) && old(openFiles)[handle].path in local)
      ensures data.None? ==> openFiles == old(openFiles)
      ensures data.Some? ==>
        var e := old(openFiles)[handle];
        var end := if e.offset + max <= |local[e.path]| then e.offset + max else |local[e.path]|;
        && data.value == (if e.offset <= end then local[e.path][e.offset..end] else [])
        && openFiles == old(openFiles)[handle := e.(offset := e.offset + |data.value|)]
    {
      if handle !in openFiles || openFiles[handle].path !in local {
        return None;
      }
      var e := openFiles[handle];
      var content := local[e.path];
      var end := if e.offset + max <= |content| then e.offset + max else |content|;
      var bytes := if e.offset <= end then content[e.offset..end] else [];
      openFiles := openFiles[handle := e.(offset := e.offset + |bytes|)];
      data := Some(bytes);
    }

    // Closes a handle. A written file is stored: the same request is sent up to eight times, and
    // each attempt may not reach the server, break off, lose its reply, or succeed. The server
    // stores the file once if any attempt reaches it whole, and not at all otherwise; a file
    // without bytes cannot be stored. The next open will show the stored bytes, unless an input
    // file has the same name and this was not the first store under it.
    method Close(handle: nat, fates: seq<Fate>) returns (ok: bool)
      requires Valid() && |fates| == MAX_RETRIES
      modifies this, server
      ensures Valid() && local == old(local) && openFiles == old(openFiles) - {handle}
      ensures handle !in old(openFiles) ==> !ok && server.Now() == old(server.Now()) && tainted == old(tainted)
      ensures handle in old(openFiles) ==>
        var e := old(openFiles)[handle];
        var full := e.dirty && e.path in local && local[e.path] != [];
        && ok == (!e.dirty || (full && GotReply(fates)))
        && (if full && Reached(fates)
            then server.files == old(server.files)[e.path := local[e.path]]
              && server.versions == old(server.versions)[e.path := VersionOf(CopyOf(old(server.Now()), e.path)) + 1]
            else server.files == old(server.files) && server.versions == old(server.versions))
        && tainted == (if !e.dirty then old(tainted)
                       else if ok && e.path !in server.inputs then old(tainted) - {e.path}
                       else old(tainted) + {e.path})
        && (ok && e.dirty && e.path in cached ==>
              && e.path in server.versions
              && (Confirmed(e.path) <==> e.path !in server.inputs || server.versions[e.path] == 1))
    {
      hide Handle, DedupKey, StoreRequest, Coherent, Reached, GotReply;
      if handle !in openFiles {
        return false;
      }
      var e := openFiles[handle];
      openFiles := openFiles - {handle};
      ok := true;
      if e.dirty {
        if e.path !in local {
          TaintMore(server.Now(), cached, local, tainted, e.path);
          tainted := tainted + {e.path};
          return false;
        }
        ok := Flush(e.path, fates);
        if !ok {
          return;
        }
      }
      ghost var before := server.Now();
      var _ := server.CloseFile(e.serverHandle);
      SameServer(before, server.Now(), cached, local, tainted);
    }

    // Stores a file and records its new version if the file is cached.
    method Flush(path: string, fates: seq<Fate>) returns (ok: bool)
      requires Valid() && path in local && |fates| == MAX_RETRIES
      modifies `reqSeq, `cached, `tainted, server
      ensures Valid()
      ensures ok == (local[path] != [] && GotReply(fates))
      ensures if local[path] != [] && Reached(fates)
        then server.files == old(server.files)[path := local[path]]
          && server.versions == old(server.versions)[path := VersionOf(CopyOf(old(server.Now()), path)) + 1]
        else server.files == old(server.files) && server.versions == old(server.versions)
      ensures tainted == if ok && path !in server.inputs then old(tainted) - {path} else old(tainted) + {path}
      ensures ok && path in cached ==> path in server.versions && cached[path] == server.versions[path]
    {
      hide Handle, DedupKey, Pieces, StoreFrames, Coherent, Consistent, Reached, GotReply;
      reqSeq := reqSeq + 1;
      ghost var before := server.Now();
      StoreOnServer(before, path, clientId, reqSeq, local[path]);
      ghost var after := Handle(before, StoreRequest(path, clientId, reqSeq, local[path])).0;
      UnusedStayUnused(clientId, before.dedup, after.dedup, reqSeq);
      var pieces := SendPieces(local[path]);
      var reply := CallUntilAnswered(StoreReq(StoreFrames(path, clientId, reqSeq, pieces), true), fates);
      AnsweredMeansReached(fates);
      ok := reply.Some? && reply.value.error == "";
      TaintedCoherent(before, server.Now(), path, cached, local, tainted);
      ghost var tainted' := if ok && path !in server.inputs then tainted - {path} else tainted + {path};
      if ok && path in cached {
        assert local[path := local[path]] == local;
        RecordedCoherent(server.Now(), path, cached, local, tainted, reply.value.version, local[path], tainted');
        cached := cached[path := reply.value.version];
      } else if ok && path !in server.inputs {
        UncachedCoherent(server.Now(), path, cached, local, tainted);
      }
      tainted := tainted';
    }

    method Send(r: Request) returns (out: Outcome)
      modifies server
      ensures (server.Now(), out) == Handle(old(server.Now()), r)
    {
      match r {
        case OpenReq(path, write, c, q) => out := server.Open(path, write, c, q);
        case StoreReq(chunks, eof) => out := server.StoreFile(chunks, eof);
        case CreateReq(path, c, q) => out := server.CreateFile(path, c, q);
        case DeleteReq(path, c, q) => out := server.DeleteFile(path, c, q);
      }
    }

    // The retry loop of every call: the same request, with the same number, until it is answered.
    method CallUntilAnswered(r: Request, fates: seq<Fate>) returns (reply: Option<Reply>)
      requires server.primary && !Recorded(server.Now(), r) && (r.StoreReq? ==> r.eof) && |fates| == MAX_RETRIES
      modifies server
      ensures server.Now() == if Reached(fates) then Handle(old(server.Now()), r).0 else old(server.Now())
      ensures GotReply(fates) ==> Handle(old(server.Now()), r).1.Replied?
      ensures reply == if GotReply(fates) then Some(Handle(old(server.Now()), r).1.reply) else None
    {
      hide Handle, Recorded, Reached, GotReply;
      ghost var before := server.Now();
      ghost var (after, out) := Handle(before, r);
      CallTwice(before, r);
      reply := None;
      var attempt := 0;
      NoFates(fates);
      while attempt < MAX_RETRIES && reply.None?
        invariant 0 <= attempt <= MAX_RETRIES
        invariant server.Now() == if Reached(fates[..attempt]) then after else before
        invariant reply == if GotReply(fates[..attempt]) then Some(out.reply) else None
      {
        OneMoreFate(fates, attempt);
        if fates[attempt].BrokenOff? && r.StoreReq? {
          var n := if fates[attempt].chunks < |r.chunks| then fates[attempt].chunks else |r.chunks|;
          BrokenStoreChangesNothing(server.Now(), r.chunks[..n]);
          var _ := Send(StoreReq(r.chunks[..n], false));
        } else if fates[attempt].ReplyLost? || fates[attempt].Answered? {
          var answer := Send(r);
          if fates[attempt].Answered? {
            reply := Some(answer.reply);
          }
        }
        attempt := attempt + 1;
      }
      ReplyStays(fates, attempt);
      assert fates[..|fates|] == fates;
    }

    // Creates a file on the server and opens its empty local copy. If no reply arrives, the file
    // may exist on the server all the same.
    method CreateFile(path: string, fates: seq<Fate>) returns (handle: Option<nat>)
      requires Valid() && |fates| == MAX_RETRIES
      modifies this, server
      ensures Valid() && (handle.Some? <==> path !in old(server.files) && GotReply(fates))
      ensures if path !in old(server.files) && Reached(fates)
        then server.files == old(server.files)[path := []] && server.versions == old(server.versions)[path := 1]
        else server.files == old(server.files) && server.versions == old(server.versions)
      ensures handle.Some? ==>
        && local == old(local)[path := []] && cached == old(cached)[path := 1] && handle.value !in old(openFiles)
        && (exists h :: openFiles == old(openFiles)[handle.value := OpenEntry(path, false, 0, h)])
        && tainted == if path in server.inputs then old(tainted) + {path} else old(tainted) - {path}
      ensures handle.None? ==>
        && local == old(local) && cached == old(cached)
        && tainted == if path !in old(server.files) && Reached(fates) then old(tainted) + {path} else old(tainted)
    {
      hide Handle, DedupKey, Coherent, Consistent, Reached, GotReply;
      reqSeq := reqSeq + 1;
      ghost var before := server.Now();
      CreateOnServer(before, path, clientId, reqSeq);
      var reply := CallUntilAnswered(CreateReq(path, clientId, reqSeq), fates);
      AnsweredMeansReached(fates);
      UnusedStayUnused(clientId, before.dedup, server.dedupTable, reqSeq);
      if reply.None? || reply.value.error != "" {
        if path !in before.files && Reached(fates) {
          TaintedCoherent(before, server.Now(), path, cached, local, tainted);
          tainted := tainted + {path};
        } else {
          SameServer(before, server.Now(), cached, local, tainted);
        }
        return None;
      }
      ghost var tainted' := if path in server.inputs then tainted + {path} else tainted - {path};
      TaintedCoherent(before, server.Now(), path, cached, local, tainted);
      RecordedCoherent(server.Now(), path, cached, local, tainted, 1, [], tainted');
      local := local[path := []];
      cached := cached[path := 1];
      tainted := tainted';
      var h := OpenEntryFor(path, reply.value.handle);
      handle := Some(h);
    }

    // Deletes a file on the server and drops the local copy. If no reply arrives, the file may
    // be gone from the server all the same.
    method DeleteFile(path: string, fates: seq<Fate>) returns (ok: bool)
      requires Valid() && |fates| == MAX_RETRIES
      modifies this, server
      ensures Valid() && openFiles == old(openFiles) && tainted == old(tainted) && ok == GotReply(fates)
      ensures if Reached(fates)
        then server.files == old(server.files) - {path} && server.versions == old(server.versions) - {path}
        else server.files == old(server.files) && server.versions == old(server.versions)
      ensures if ok then local == old(local) - {path} && cached == old(cached) - {path}
        else local == old(local) && cached == old(cached)
    {
      hide Handle, DedupKey, Coherent, Consistent, Reached, GotReply;
      reqSeq := reqSeq + 1;
      ghost var before := server.Now();
      DeleteOnServer(before, path, clientId, reqSeq);
      var reply := CallUntilAnswered(DeleteReq(path, clientId, reqSeq), fates);
      AnsweredMeansReached(fates);
      UnusedStayUnused(clientId, before.dedup, server.dedupTable, reqSeq);
      ok := reply.Some?;
      if ok {
        StaysCoherent(before, server.Now(), path, cached, local, tainted, cached - {path}, local - {path}, tainted);
        local := local - {path};
        cached := cached - {path};
      } else if Reached(fates) {
        DeletedStaysCoherent(before, server.Now(), path, cached, local, tainted);
      } else {
        SameServer(before, server.Now(), cached, local, tainted);
      }
    }
  }

  // Sending a request twice has the effect and the reply of sending it once.
  lemma CallTwice(s: Server, r: Request)
    requires s.primary && !Recorded(s, r) && (r.StoreReq? ==> r.eof)
    ensures Handle(s, r).1.Replied? && Handle(Handle(s, r).0, r) == Handle(s, r)
  {
    AlwaysReplies(s, r);
    hide Handle, Recorded;
    RetriesAreHarmless(s, r);
  }

  lemma AlwaysReplies(s: Server, r: Request)
    requires s.primary && !Recorded(s, r) && (r.StoreReq? ==> r.eof)
    ensures Handle(s, r).1.Replied?
  {
    hide DedupKey, Concat;
  }

  // Whatever happens to one path on the server, the cache is coherent once the path is tainted.
  lemma TaintedCoherent(s: Server, s': Server, path: string, cached: map<string, nat>,
                        local: map<string, Bytes>, tainted: set<string>)
    requires Coherent(s, cached, local, tainted) && SameElsewhere(s, s', path)
    ensures Coherent(s', cached, local, tainted + {path})
  {
    StaysCoherent(s, s', path, cached, local, tainted, cached, local, tainted + {path});
  }

  // It stays so if a copy that agrees with the server is recorded for the path.
  lemma RecordedCoherent(s: Server, path: string, cached: map<string, nat>, local: map<string, Bytes>,
                         tainted: set<string>, version: nat, data: Bytes, tainted': set<string>)
    requires Coherent(s, cached, local, tainted + {path})
    requires tainted' == tainted + {path} || (tainted' == tainted - {path} && Agrees(s, path, version, data))
    ensures Coherent(s, cached[path := version], local[path := data], tainted')
  {
    StaysCoherent(s, s, path, cached, local, tainted + {path}, cached[path := version], local[path := data], tainted');
  }

  lemma UncachedCoherent(s: Server, path: string, cached: map<string, nat>, local: map<string, Bytes>,
                         tainted: set<string>)
    requires Coherent(s, cached, local, tainted + {path}) && path !in cached
    ensures Coherent(s, cached, local, tainted - {path})
  {
  }

  // A fetched copy agrees with the server, also an empty one, which is recorded at version 0.
  lemma FetchedCoherent(s: Server, path: string, cached: map<string, nat>, local: map<string, Bytes>,
                        tainted: set<string>, fetchVersion: nat)
    requires Coherent(s, cached, local, tainted) && (path in s.inputs || path in s.files)
    ensures Coherent(s, cached[path := fetchVersion], local[path := Content(s, path)], tainted - {path})
  {
    StaysCoherent(s, s, path, cached, local, tainted,
                  cached[path := fetchVersion], local[path := Content(s, path)], tainted - {path});
  }

  // A copy of a file that is gone from the server agrees with nothing.
  lemma DeletedStaysCoherent(s: Server, s': Server, path: string, cached: map<string, nat>,
                             local: map<string, Bytes>, tainted: set<string>)
    requires Coherent(s, cached, local, tainted) && SameElsewhere(s, s', path) && path !in s'.files
    ensures Coherent(s', cached, local, tainted)
  {
    StaysCoherent(s, s', path, cached, local, tainted, cached, local, tainted);
  }

  lemma AnsweredMeansReached(fates: seq<Fate>)
    ensures GotReply(fates) ==> Reached(fates)
  {
  }

  lemma TaintMore(s: Server, cached: map<string, nat>, local: map<string, Bytes>, tainted: set<string>, path: string)
    requires Coherent(s, cached, local, tainted)
    ensures Coherent(s, cached, local, tainted + {path})
  {
  }

  lemma SameServer(s: Server, s': Server, cached: map<string, nat>, local: map<string, Bytes>, tainted: set<string>)
    requires s'.inputs == s.inputs && s'.files == s.files && s'.versions == s.versions
    ensures Coherent(s', cached, local, tainted) <==> Coherent(s, cached, local, tainted)
    ensures Consistent(s') <==> Consistent(s)
  {
  }

  lemma NoFates(fates: seq<Fate>)
    ensures !Reached(fates[..0]) && !GotReply(fates[..0])
  {
  }

  // The store request a close sends: the path and the request number on the first chunk.
  function StoreRequest(path: string, c: string, q: int, content: Bytes): Request
  {
    StoreReq(StoreFrames(path, c, q, Pieces(content, CHUNK_SIZE)), true)
  }

  lemma StoreOnServer(s: Server, path: string, c: string, q: int, content: Bytes)
    requires s.primary && Consistent(s) && DedupKey(c, q) !in s.dedup
    ensures var r := StoreRequest(path, c, q, content);
      var (s', out) := Handle(s, r);
      && !Recorded(s, r) && out.Replied? && out.reply.StoreReply?
      && (out.reply.error == "" <==> content != [])
      && Consistent(s') && s'.primary && s'.inputs == s.inputs && s'.dedup.Keys <= s.dedup.Keys + {DedupKey(c, q)}
      && Handle(s', r) == (s', out)
      && (content == [] ==> s' == s)
      && (content != [] ==>
            && s'.files == s.files[path := content]
            && s'.versions == s.versions[path := VersionOf(CopyOf(s, path)) + 1]
            && out.reply.version == VersionOf(CopyOf(s, path)) + 1)
  {
    var r := StoreRequest(path, c, q, content);
    assert !Recorded(s, r) by { hide DedupKey; }
    StoreDelivers(s, path, c, q, content);
    HandleConsistent(s, r);
    ExecuteKeepsRole(s, r);
    hide Handle, DedupKey;
    if content != [] {
      RetriesAreHarmless(s, r);
    }
  }

  // None of the numbers above q has been used with a server.
  ghost predicate UnusedFrom(c: string, q: int, table: map<string, Reply>)
  {
    forall k :: k > q ==> DedupKey(c, k) !in table
  }

  lemma UnusedStayUnused(c: string, before: map<string, Reply>, after: map<string, Reply>, q: int)
    requires UnusedFrom(c, q - 1, before) && after.Keys <= before.Keys + {DedupKey(c, q)}
    ensures UnusedFrom(c, q, after)
  {
    forall k | k > q
      ensures DedupKey(c, k) !in after
    {
      if DedupKey(c, k) == DedupKey(c, q) { DedupKeyInjective(c, k, c, q); }
    }
  }

  lemma OpenOnServer(s: Server, path: string, write: bool, c: string, q: int)
    requires DedupKey(c, q) !in s.dedup
    ensures var (s', out) := Handle(s, OpenReq(path, write, c, q));
      && out.Replied? && out.reply.OpenReply?
      && (out.reply.error == "" <==> path in s.inputs || path in s.files)
      && s'.files == s.files && s'.versions == s.versions && s'.primary == s.primary && s'.inputs == s.inputs
      && s'.dedup.Keys <= s.dedup.Keys + {DedupKey(c, q)}
  {
    hide DedupKey;
  }

  lemma CreateOnServer(s: Server, path: string, c: string, q: int)
    requires s.primary && Consistent(s) && DedupKey(c, q) !in s.dedup
    ensures var (s', out) := Handle(s, CreateReq(path, c, q));
      && out.Replied? && out.reply.CreateReply? && (out.reply.error == "" <==> path !in s.files)
      && s'.primary && s'.inputs == s.inputs && s'.dedup.Keys <= s.dedup.Keys + {DedupKey(c, q)} && Consistent(s')
      && (if path in s.files then s'.files == s.files && s'.versions == s.versions
          else s'.files == s.files[path := []] && s'.versions == s.versions[path := 1])
      && SameElsewhere(s, s', path)
      && (path !in s.files && path !in s.inputs ==> Agrees(s', path, 1, []))
  {
    hide DedupKey;
  }

  lemma DeleteOnServer(s: Server, path: string, c: string, q: int)
    requires s.primary && Consistent(s) && DedupKey(c, q) !in s.dedup
    ensures var (s', out) := Handle(s, DeleteReq(path, c, q));
      && out == Replied(DeleteReply(""))
      && s'.primary && s'.inputs == s.inputs && s'.dedup.Keys <= s.dedup.Keys + {DedupKey(c, q)} && Consistent(s')
      && s'.files == s.files - {path} && s'.versions == s.versions - {path} && SameElsewhere(s, s', path)
  {
    hide DedupKey;
  }

  // The chunks of a fetch: their concatenation, and the version if any chunk carried one; else
  // the version that an earlier attempt has seen.
  method Receive(chunks: seq<Bytes>, version: nat, seen: nat) returns (data: Bytes, fetchVersion: nat)
    ensures data == Flatten(chunks) && fetchVersion == if chunks == [] || version == 0 then seen else version
  {
    data, fetchVersion := [], seen;
    for i := 0 to |chunks|
      invariant data == Flatten(chunks[..i])
      invariant fetchVersion == if i == 0 || version == 0 then seen else version
    {
      assert chunks[..i + 1] == chunks[..i] + [chunks[i]];
      FlattenSnoc(chunks[..i], chunks[i]);
      data := data + chunks[i];
      if version > 0 {
        fetchVersion := version;
      }
    }
    assert chunks[..|chunks|] == chunks;
  }

  // ---------- A file stored under the name of an input file ----------

  lemma {:induction false} RunKeepsInputs(s: Server, events: seq<Event>)
    ensures Run(s, events).inputs == s.inputs
  {
    hide Handle;
    if events != [] {
      var front, e := events[..|events| - 1], events[|events| - 1];
      RunKeepsInputs(s, front);
      if e.Call? { ExecuteKeepsRole(Run(s, front), e.request); }
    }
  }

  // After any history, the server serves what was stored exactly when no input file has that
  // name, or one with the same bytes.
  lemma StoredBytesAreServedIff(s: Server, events: seq<Event>, path: string, c: string, q: int, content: Bytes)
    requires Run(s, events).primary && DedupKey(c, q) !in Run(s, events).dedup && content != []
    ensures var s' := Handle(Run(s, events), StoreRequest(path, c, q, content)).0;
      && (path in s'.inputs || path in s'.files)
      && (Content(s', path) == content <==> path !in s.inputs || s.inputs[path] == content)
  {
    hide Handle, StoreFrames, Pieces, DedupKey, Run;
    var now, r := Run(s, events), StoreRequest(path, c, q, content);
    RunKeepsInputs(s, events);
    ExecuteKeepsRole(now, r);
    StoreDelivers(now, path, c, q, content);
  }

  // What a client that has just stored its local copy, and recorded the version it was given,
  // sees when it opens the file again.
  function ShownNext(s: Server, path: string, version: nat, local: Bytes): Bytes
    requires path in s.inputs || path in s.files
  {
    if version == Version(s, path) then local else Content(s, path)
  }

  // It sees the stored bytes exactly when no input file has that name, this was the first store
  // under it, or the bytes are the same; otherwise it sees the input file.
  lemma NextOpenShowsStoredIff(s: Server, events: seq<Event>, path: string, c: string, q: int, content: Bytes)
    requires Run(s, events).primary && DedupKey(c, q) !in Run(s, events).dedup && content != []
    requires Consistent(Run(s, events))
    ensures var now := Run(s, events);
      var s' := Handle(now, StoreRequest(path, c, q, content)).0;
      && path in s'.versions && (path in s'.inputs || path in s'.files)
      && var shown := ShownNext(s', path, s'.versions[path], content);
         && (shown == content <==> path !in s.inputs || path !in now.files || s.inputs[path] == content)
         && (path in s.inputs && path in now.files ==> shown == s.inputs[path])
  {
    hide Handle, StoreFrames, Pieces, DedupKey, Run;
    var now, r := Run(s, events), StoreRequest(path, c, q, content);
    RunKeepsInputs(s, events);
    ExecuteKeepsRole(now, r);
    StoreDelivers(now, path, c, q, content);
  }
}
