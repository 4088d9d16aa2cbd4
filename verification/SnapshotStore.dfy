/**
 How the coordinator writes and reads whole files on AFS: delete, create, write and close for
 every snapshot and output, and open, read and close for a snapshot. The three calls of a write
 are shown to be the steps that the crash-and-resume machine takes.
 */
module SnapshotStore {
  import opened Sequences
  import opened Handler
  import opened AfsClient
  import Recovery

  const READ_BUFFER := 32 * 1024

  // A file on the server as the machine sees it.
  function StatusOf(s: Server, name: string): Recovery.Stored<Bytes>
  {
    if name !in s.files then Recovery.Absent
    else if s.files[name] == [] then Recovery.Empty
    else Recovery.Holds(s.files[name])
  }

  // Delete, create and store are the machine's: between them the file may be missing or empty,
  // and it never holds anything but the old content or the new.
  ghost predicate WriteSteps(before: Recovery.Stored<Bytes>, deleted: Recovery.Stored<Bytes>,
                             created: Recovery.Stored<Bytes>, after: Recovery.Stored<Bytes>,
                             data: Bytes, isOpen: bool, ok: bool)
  {
    && Recovery.Deletes(before, deleted) && Recovery.Creates(deleted, created, isOpen)
    && (if isOpen then Recovery.Stores(created, after, data, data == [], ok) else after == created && !ok)
  }

  // Writes a file: the delete may fail, a failed create or close is reported.
  method WriteToAfs(client: Client, name: string, data: Bytes,
                    deletes: seq<Fate>, creates: seq<Fate>, closes: seq<Fate>) returns (ok: bool)
    requires client.Valid() && |deletes| == |creates| == |closes| == MAX_RETRIES
    modifies client, client.server
    ensures client.Valid()
    ensures ok <==>
      && (name !in old(client.server.files) || Reached(deletes))
      && GotReply(creates) && data != [] && GotReply(closes)
    ensures ok ==>
      && client.server.files == old(client.server.files)[name := data]
      && client.server.versions == old(client.server.versions)[name := 2]
      && (name !in client.server.inputs ==> name !in client.tainted)
    ensures client.server.files - {name} == old(client.server.files) - {name}
    ensures exists deleted, created, isOpen ::
      WriteSteps(StatusOf(old(client.server.Now()), name), deleted, created, StatusOf(client.server.Now(), name),
                 data, isOpen, ok)
  {
    hide Reached, GotReply, Coherent, Consistent, UnusedFrom, Overwrite, StatusOf, WriteSteps;
    hide Recovery.Deletes, Recovery.Creates, Recovery.Stores;
    ghost var s0 := client.server.Now();
    var handle := DeleteAndCreate(client, name, deletes, creates);
    ghost var s2 := client.server.Now();
    ghost var deleted :| Recovery.Deletes(StatusOf(s0, name), deleted)
                      && Recovery.Creates(deleted, StatusOf(s2, name), handle.Some?);
    if handle.None? {
      NotOpened(StatusOf(s0, name), deleted, StatusOf(s2, name), data);
      return false;
    }
    ok := WriteAndClose(client, handle.value, name, data, closes);
    AnsweredMeansReached(closes);
    StoreStep(StatusOf(s0, name), deleted, s2, client.server.Now(), name, data, ok);
  }

  // Makes room for a new file and opens it.
  method DeleteAndCreate(client: Client, name: string, deletes: seq<Fate>, creates: seq<Fate>)
    returns (handle: Option<nat>)
    requires client.Valid() && |deletes| == |creates| == MAX_RETRIES
    modifies client, client.server
    ensures client.Valid()
    ensures handle.Some? <==> (name !in old(client.server.files) || Reached(deletes)) && GotReply(creates)
    ensures handle.Some? ==>
      && client.server.files == old(client.server.files)[name := []]
      && client.server.versions == old(client.server.versions)[name := 1]
      && handle.value in client.openFiles && client.openFiles[handle.value].path == name
      && client.openFiles[handle.value].offset == 0 && name in client.local && client.local[name] == []
    ensures client.server.files - {name} == old(client.server.files) - {name}
    ensures exists deleted ::
      && Recovery.Deletes(StatusOf(old(client.server.Now()), name), deleted)
      && Recovery.Creates(deleted, StatusOf(client.server.Now(), name), handle.Some?)
  {
    hide Reached, GotReply, Coherent, Consistent, UnusedFrom, StatusOf;
    hide Recovery.Deletes, Recovery.Creates;
    ghost var s0 := client.server.Now();
    var _ := client.DeleteFile(name, deletes);
    ghost var s1 := client.server.Now();
    handle := client.CreateFile(name, creates);
    AnsweredMeansReached(creates);
    ghost var s2 := client.server.Now();
    Elsewhere(s0.files, s1.files, s2.files, name, []);
    Elsewhere(s0.versions, s1.versions, s2.versions, name, 1);
    DeleteAndCreateSteps(s0, s1, s2, name, handle.Some?);
  }

  // Removing an entry, or not, and setting it is setting it; the other entries stay.
  lemma Elsewhere<T>(m0: map<string, T>, m1: map<string, T>, m2: map<string, T>, name: string, x: T)
    requires m1 == m0 || m1 == m0 - {name}
    ensures m2 == m1[name := x] ==> m2 == m0[name := x]
    ensures m2 - {name} == m1 - {name} ==> m2 - {name} == m0 - {name}
    ensures m2 == m1[name := x] || m2 == m1 ==> m2 - {name} == m0 - {name}
  {
  }

  // Writes to a handle of a new file and closes it.
  method WriteAndClose(client: Client, h: nat, name: string, data: Bytes, closes: seq<Fate>) returns (ok: bool)
    requires client.Valid() && |closes| == MAX_RETRIES
    requires h in client.openFiles && client.openFiles[h].path == name && client.openFiles[h].offset == 0
    requires name in client.local && client.local[name] == []
    requires CopyOf(client.server.Now(), name) == Copy([], 1)
    modifies client, client.server
    ensures client.Valid() && ok == (data != [] && GotReply(closes))
    ensures if data != [] && Reached(closes)
      then client.server.files == old(client.server.files)[name := data]
        && client.server.versions == old(client.server.versions)[name := 2]
      else client.server.files == old(client.server.files) && client.server.versions == old(client.server.versions)
    ensures ok && name !in client.server.inputs ==> name !in client.tainted
  {
    hide Reached, GotReply, Coherent, Consistent, UnusedFrom, Overwrite;
    var _ := client.Write(h, data);
    OverwriteEmpty(data);
    ok := client.Close(h, closes);
  }

  // The deletion and the creation are the machine's steps.
  lemma DeleteAndCreateSteps(s0: Server, s1: Server, s2: Server, name: string, isOpen: bool)
    requires s1.files == s0.files - {name} || s1.files == s0.files
    requires if isOpen then name !in s1.files && s2.files == s1.files[name := []]
      else s2.files == s1.files || (name !in s1.files && s2.files == s1.files[name := []])
    ensures Recovery.Deletes(StatusOf(s0, name), StatusOf(s1, name))
    ensures Recovery.Creates(StatusOf(s1, name), StatusOf(s2, name), isOpen)
  {
  }

  lemma NotOpened(before: Recovery.Stored<Bytes>, deleted: Recovery.Stored<Bytes>, created: Recovery.Stored<Bytes>,
                  data: Bytes)
    requires Recovery.Deletes(before, deleted) && Recovery.Creates(deleted, created, false)
    ensures WriteSteps(before, deleted, created, created, data, false, false)
  {
  }

  // And so is the store.
  lemma StoreStep(before: Recovery.Stored<Bytes>, deleted: Recovery.Stored<Bytes>, s2: Server, s3: Server,
                  name: string, data: Bytes, ok: bool)
    requires Recovery.Deletes(before, deleted) && Recovery.Creates(deleted, StatusOf(s2, name), true)
    requires if ok then data != [] && s3.files == s2.files[name := data]
      else s3.files == s2.files || (data != [] && s3.files == s2.files[name := data])
    ensures WriteSteps(before, deleted, StatusOf(s2, name), StatusOf(s3, name), data, true, ok)
  {
  }

  lemma OverwriteEmpty(data: Bytes)
    ensures Overwrite([], 0, data) == data
  {
  }

  // Reads a whole file. An empty or unreadable file is an error.
  method ReadFromAfs(client: Client, name: string, fates: seq<Fate>, asked: bool, fetches: seq<Fate>,
                     closes: seq<Fate>) returns (data: Option<Bytes>)
    requires client.Valid() && |fates| == |fetches| == |closes| == MAX_RETRIES
    modifies client, client.server
    ensures client.Valid()
    ensures client.server.files == old(client.server.files) && client.server.versions == old(client.server.versions)
    ensures var server := client.server;
      var found := name in server.inputs || name in server.files;
      var opens := found && GotReply(fates) && ((asked && old(client.Confirmed(name))) || GotReply(fetches));
      && (!opens ==> data == None)
      && (opens && name !in old(client.tainted) ==>
            data == if Content(server.Now(), name) == [] then None else Some(Content(server.Now(), name)))
  {
    hide Reached, GotReply;
    var handle := client.Open(name, false, fates, asked, fetches);
    if handle.None? {
      return None;
    }
    var h := handle.value;
    var all: Bytes := [];
    ghost var content := client.local[name];
    var done := false;
    while !done
      invariant client.Valid() && h in client.openFiles && name in client.local && client.local[name] == content
      invariant client.openFiles[h].path == name && !client.openFiles[h].dirty && client.openFiles[h].offset == |all|
      invariant all <= content && (done ==> all == content)
      invariant client.server.files == old(client.server.files) && client.server.versions == old(client.server.versions)
      decreases |content| - |all|, if done then 0 else 1
    {
      var chunk := client.Read(h, READ_BUFFER);
      if chunk.None? || chunk.value == [] {
        done := true;
      } else {
        all := all + chunk.value;
      }
    }
    var _ := client.Close(h, closes);
    data := if all == [] then None else Some(all);
  }
}
