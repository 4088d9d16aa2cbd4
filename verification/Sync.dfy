/**
 How a recovering server catches up: the primary streams its output files chunk by chunk, naming
 a file on its first chunk only, and the receiver installs every file that it misses or holds at
 an older version. A stream that breaks off leaves a part of a file under its full version.
 */
module Sync {
  import opened Sequences
  import opened Handler

  datatype Entry = Entry(name: string, content: Bytes, version: nat)

  datatype SyncChunk = SyncChunk(path: string, data: Bytes, version: nat)

  // An entry together with the pieces in which its content is read and sent.
  datatype Framed = Framed(entry: Entry, pieces: seq<Bytes>)

  ghost predicate WellFramed(f: Framed)
  {
    && f.entry.name != "" && f.pieces != []
    && Flatten(f.pieces) == f.entry.content
    && forall i :: 0 <= i < |f.pieces| ==> f.pieces[i] != []
  }

  // ---------- The sender ----------

  function FileFrames(e: Entry, pieces: seq<Bytes>): (r: seq<SyncChunk>)
    ensures |r| == |pieces|
  {
    seq(|pieces|, i requires 0 <= i < |pieces| => SyncChunk(if i == 0 then e.name else "", pieces[i], e.version))
  }

  function Frames(fs: seq<Framed>): seq<SyncChunk>
  {
    if fs == [] then [] else Frames(fs[..|fs| - 1]) + FileFrames(fs[|fs| - 1].entry, fs[|fs| - 1].pieces)
  }

  function Framing(entries: seq<Entry>): (fs: seq<Framed>)
    ensures |fs| == |entries|
    ensures forall i :: 0 <= i < |fs| ==> fs[i] == Framed(entries[i], Pieces(entries[i].content, CHUNK_SIZE))
  {
    seq(|entries|, i requires 0 <= i < |entries| => Framed(entries[i], Pieces(entries[i].content, CHUNK_SIZE)))
  }

  method SyncState(entries: seq<Entry>) returns (sent: seq<SyncChunk>)
    ensures sent == Frames(Framing(entries))
  {
    sent := [];
    for k := 0 to |entries|
      invariant sent == Frames(Framing(entries)[..k])
    {
      ghost var fs := Framing(entries)[..k + 1];
      assert fs[..k] == Framing(entries)[..k];
      var chunks := SendFile(entries[k]);
      sent := sent + chunks;
    }
    assert Framing(entries)[..|entries|] == Framing(entries);
  }

  method SendFile(e: Entry) returns (sent: seq<SyncChunk>)
    ensures sent == FileFrames(e, Pieces(e.content, CHUNK_SIZE))
  {
    var pieces := SendPieces(e.content);
    sent := [];
    var firstChunk := true;
    for i := 0 to |pieces|
      invariant firstChunk == (i == 0)
      invariant sent == FileFrames(e, pieces)[..i]
    {
      var path := "";
      if firstChunk {
        path := e.name;
        firstChunk := false;
      }
      sent := sent + [SyncChunk(path, pieces[i], e.version)];
    }
  }

  lemma FramingIsWellFramed(e: Entry)
    requires e.name != "" && e.content != []
    ensures WellFramed(Framed(e, Pieces(e.content, CHUNK_SIZE)))
  {
    PiecesRebuild(e.content, CHUNK_SIZE);
    NoPieces(e.content, CHUNK_SIZE);
  }

  // ---------- The receiver ----------

  datatype Receiver = Receiver(files: map<string, Bytes>, versions: map<string, nat>,
                               curPath: string, curVersion: nat, curFull: string, curTmp: Option<Bytes>)

  function Begin(files: map<string, Bytes>, versions: map<string, nat>): Receiver
  {
    Receiver(files, versions, "", 0, "", None)
  }

  // Rename the temporary file into place and take over its version.
  function Finalize(r: Receiver): Receiver
  {
    match r.curTmp
    case None => r
    case Some(tmp) =>
      r.(files := r.files[r.curFull := tmp], versions := r.versions[r.curFull := r.curVersion], curTmp := None)
  }

  predicate UpToDate(versions: map<string, nat>, name: string, version: nat)
  {
    name in versions && versions[name] >= version
  }

  function Accept(r: Receiver, c: SyncChunk): Receiver
  {
    if c.path != "" && c.path != r.curPath then
      var r1 := Finalize(r);
      if UpToDate(r1.versions, c.path, c.version)
      then r1.(curPath := "", curVersion := c.version, curFull := c.path)
      else r1.(curPath := c.path, curVersion := c.version, curFull := c.path, curTmp := Some(c.data))
    else
      match r.curTmp
      case None => r
      case Some(tmp) => r.(curTmp := Some(tmp + c.data))
  }

  function AcceptAll(r: Receiver, chunks: seq<SyncChunk>): Receiver
  {
    if chunks == [] then r else Accept(AcceptAll(r, chunks[..|chunks| - 1]), chunks[|chunks| - 1])
  }

  // The receive loop. The stream may have ended or broken off: the last file is finalized
  // either way.
  method ReceiveSync(files: map<string, Bytes>, versions: map<string, nat>, chunks: seq<SyncChunk>)
    returns (files': map<string, Bytes>, versions': map<string, nat>)
    ensures var r := Finalize(AcceptAll(Begin(files, versions), chunks));
      files' == r.files && versions' == r.versions
  {
    files', versions' := files, versions;
    var curPath, curFull, curVersion := "", "", 0;
    var curTmp: Option<Bytes> := None;
    for i := 0 to |chunks|
      invariant Receiver(files', versions', curPath, curVersion, curFull, curTmp)
             == AcceptAll(Begin(files, versions), chunks[..i])
    {
      assert chunks[..i + 1][..i] == chunks[..i];
      var chunk := chunks[i];
      if chunk.path != "" && chunk.path != curPath {
        if curTmp.Some? {
          files' := files'[curFull := curTmp.value];
          versions' := versions'[curFull := curVersion];
          curTmp := None;
        }
        curPath, curVersion, curFull := chunk.path, chunk.version, chunk.path;
        if curFull in versions' && versions'[curFull] >= curVersion {
          curPath := "";
          continue;
        }
        curTmp := Some([]);
      }
      if curTmp.Some? && |chunk.data| > 0 {
        curTmp := Some(curTmp.value + chunk.data);
      } else if curTmp.Some? {
        assert curTmp.value + chunk.data == curTmp.value;
      }
      assert [] + chunk.data == chunk.data;
    }
    assert chunks[..|chunks|] == chunks;
    if curTmp.Some? {
      files' := files'[curFull := curTmp.value];
      versions' := versions'[curFull := curVersion];
    }
  }

  // ---------- What a sync achieves ----------

  datatype Store = Store(files: map<string, Bytes>, versions: map<string, nat>)

  function Install(s: Store, e: Entry): Store
  {
    if UpToDate(s.versions, e.name, e.version) then s
    else Store(s.files[e.name := e.content], s.versions[e.name := e.version])
  }

  function InstallAll(s: Store, entries: seq<Entry>): Store
  {
    if entries == [] then s else Install(InstallAll(s, entries[..|entries| - 1]), entries[|entries| - 1])
  }

  function StoreOf(r: Receiver): Store
  {
    Store(r.files, r.versions)
  }

  function Entries(fs: seq<Framed>): (es: seq<Entry>)
    ensures |es| == |fs| && forall i :: 0 <= i < |es| ==> es[i] == fs[i].entry
  {
    seq(|fs|, i requires 0 <= i < |fs| => fs[i].entry)
  }

  ghost predicate DistinctNames(es: seq<Entry>)
  {
    forall i, j :: 0 <= i < j < |es| ==> es[i].name != es[j].name
  }

  lemma {:induction false} AcceptAppend(r: Receiver, a: seq<SyncChunk>, b: seq<SyncChunk>)
    ensures AcceptAll(r, a + b) == AcceptAll(AcceptAll(r, a), b)
  {
    hide Accept;
    if b == [] {
      assert a + b == a;
    } else {
      var front, last := b[..|b| - 1], b[|b| - 1];
      AcceptAppend(r, a, front);
      assert (a + b)[..|a + b| - 1] == a + front;
    }
  }

  // The first j chunks of a file: it is skipped, or its first j pieces are in the temporary file.
  lemma {:induction false} AcceptFile(r: Receiver, f: Framed, j: nat)
    requires f.entry.name != "" && f.entry.name != r.curPath && 1 <= j <= |f.pieces|
    ensures var r1, e := Finalize(r), f.entry;
      AcceptAll(r, FileFrames(e, f.pieces)[..j]) ==
        if UpToDate(r1.versions, e.name, e.version)
        then r1.(curPath := "", curVersion := e.version, curFull := e.name)
        else r1.(curPath := e.name, curVersion := e.version, curFull := e.name, curTmp := Some(Flatten(f.pieces[..j])))
  {
    hide Finalize, UpToDate;
    var frames := FileFrames(f.entry, f.pieces);
    assert frames[..j][..j - 1] == frames[..j - 1];
    if j == 1 {
      assert AcceptAll(r, frames[..0]) == r;
      assert f.pieces[..1] == [] + [f.pieces[0]];
      FlattenSnoc([], f.pieces[0]);
      assert [] + f.pieces[0] == f.pieces[0];
      NothingPending(r);
    } else {
      AcceptFile(r, f, j - 1);
      NothingPending(r);
      assert f.pieces[..j] == f.pieces[..j - 1] + [f.pieces[j - 1]];
      FlattenSnoc(f.pieces[..j - 1], f.pieces[j - 1]);
    }
  }

  lemma NothingPending(r: Receiver)
    ensures Finalize(r).curTmp == None
  {
  }

  // The chunks of one more file, cut after j pieces, install that much of it.
  lemma AcceptOneMore(r: Receiver, f: Framed, j: nat)
    requires WellFramed(f) && f.entry.name != r.curPath && 1 <= j <= |f.pieces|
    ensures var end := AcceptAll(r, FileFrames(f.entry, f.pieces)[..j]);
      && StoreOf(Finalize(end)) == Install(StoreOf(Finalize(r)), Truncated(f, j))
      && (end.curPath == "" || end.curPath == f.entry.name)
  {
    hide Flatten, AcceptAll, Accept, FileFrames;
    AcceptFile(r, f, j);
    NothingPending(r);
  }

  lemma WholeFile(f: Framed)
    requires WellFramed(f)
    ensures Truncated(f, |f.pieces|) == f.entry
    ensures FileFrames(f.entry, f.pieces)[..|f.pieces|] == FileFrames(f.entry, f.pieces)
  {
    assert f.pieces[..|f.pieces|] == f.pieces;
  }

  // Receiving whole files one after the other installs the newer ones; the last one is
  // still pending, and the current path is its name or empty.
  lemma {:induction false} AcceptFiles(r: Receiver, fs: seq<Framed>)
    requires DistinctNames(Entries(fs)) && r.curPath == "" && r.curTmp == None
    requires forall i :: 0 <= i < |fs| ==> WellFramed(fs[i])
    ensures var end := AcceptAll(r, Frames(fs));
      && StoreOf(Finalize(end)) == InstallAll(StoreOf(r), Entries(fs))
      && (end.curPath == "" || (fs != [] && end.curPath == fs[|fs| - 1].entry.name))
  {
    if fs == [] {
    } else {
      OneMoreFile(r, fs);
      hide Finalize, Install, InstallAll, AcceptAll, WellFramed, Truncated, FileFrames, Frames, Entries;
      var front, f := fs[..|fs| - 1], fs[|fs| - 1];
      AcceptFiles(r, front);
      var mid := AcceptAll(r, Frames(front));
      AcceptAppend(r, Frames(front), FileFrames(f.entry, f.pieces));
      NamedOnce(fs, mid.curPath);
      HasPieces(f);
      AcceptOneMore(mid, f, |f.pieces|);
      WholeFile(f);
    }
  }

  lemma OneMoreFile(r: Receiver, fs: seq<Framed>)
    requires fs != []
    ensures var front, f := fs[..|fs| - 1], fs[|fs| - 1];
      && Frames(fs) == Frames(front) + FileFrames(f.entry, f.pieces)
      && InstallAll(StoreOf(r), Entries(fs)) == Install(InstallAll(StoreOf(r), Entries(front)), f.entry)
      && (DistinctNames(Entries(fs)) ==> DistinctNames(Entries(front)))
  {
    assert Entries(fs)[..|fs| - 1] == Entries(fs[..|fs| - 1]);
  }

  lemma HasPieces(f: Framed)
    requires WellFramed(f)
    ensures f.entry.name != "" && |f.pieces| >= 1
  {
  }

  lemma NamedOnce(fs: seq<Framed>, path: string)
    requires fs != [] && DistinctNames(Entries(fs)) && WellFramed(fs[|fs| - 1])
    requires path == "" || (|fs| > 1 && path == fs[|fs| - 2].entry.name)
    ensures path != fs[|fs| - 1].entry.name
  {
    if |fs| > 1 { assert Entries(fs)[|fs| - 2].name != Entries(fs)[|fs| - 1].name; }
  }

  // A sync that runs to the end of the stream installs exactly the missing and older files.
  lemma SyncRoundTrip(s: Store, fs: seq<Framed>)
    requires DistinctNames(Entries(fs)) && forall i :: 0 <= i < |fs| ==> WellFramed(fs[i])
    ensures StoreOf(Finalize(AcceptAll(Begin(s.files, s.versions), Frames(fs)))) == InstallAll(s, Entries(fs))
  {
    AcceptFiles(Begin(s.files, s.versions), fs);
  }

  // File by file: a missing or older file takes the sender's bytes and version, every other
  // file keeps what the receiver had.
  lemma {:induction false} InstallAllMeans(s: Store, es: seq<Entry>, name: string)
    requires DistinctNames(es)
    ensures var s' := InstallAll(s, es);
      && (forall i :: 0 <= i < |es| && es[i].name == name && !UpToDate(s.versions, name, es[i].version) ==>
            && name in s'.files && s'.files[name] == es[i].content
            && name in s'.versions && s'.versions[name] == es[i].version)
      && ((forall i :: 0 <= i < |es| && es[i].name == name ==> UpToDate(s.versions, name, es[i].version)) ==>
            SameAt(s, s', name))
  {
    if es == [] {
    } else {
      var front, e := es[..|es| - 1], es[|es| - 1];
      InstallAllMeans(s, front, name);
      assert forall i :: 0 <= i < |front| ==> es[i] == front[i];
      if e.name == name {
        assert forall i :: 0 <= i < |front| ==> front[i].name != name;
      }
    }
  }

  predicate SameAt(s: Store, t: Store, name: string)
  {
    && (name in s.files <==> name in t.files) && (name in s.files ==> s.files[name] == t.files[name])
    && (name in s.versions <==> name in t.versions) && (name in s.versions ==> s.versions[name] == t.versions[name])
  }

  // The files that send at least one chunk.
  function NonEmpty(es: seq<Entry>): seq<Entry>
  {
    if es == [] then []
    else
      var front, e := NonEmpty(es[..|es| - 1]), es[|es| - 1];
      if e.content == [] then front else front + [e]
  }

  lemma FramesOneMore(es: seq<Entry>, e: Entry)
    ensures Frames(Framing(es + [e])) == Frames(Framing(es)) + FileFrames(e, Pieces(e.content, CHUNK_SIZE))
  {
    hide Pieces, FileFrames;
    assert Framing(es + [e])[..|es|] == Framing(es);
  }

  lemma {:induction false} EmptyFilesSendNothing(es: seq<Entry>)
    ensures Frames(Framing(es)) == Frames(Framing(NonEmpty(es)))
  {
    if es == [] {
    } else {
      hide Frames, Framing, Pieces;
      var front, e := es[..|es| - 1], es[|es| - 1];
      EmptyFilesSendNothing(front);
      assert es == front + [e];
      FramesOneMore(front, e);
      if e.content == [] {
        NoPieces(e.content, CHUNK_SIZE);
      } else {
        FramesOneMore(NonEmpty(front), e);
      }
    }
  }

  lemma {:induction false} NonEmptyMeans(es: seq<Entry>, e: Entry)
    ensures e in NonEmpty(es) <==> e in es && e.content != []
    ensures DistinctNames(es) ==> DistinctNames(NonEmpty(es))
  {
    if es == [] {
    } else {
      var front, last := es[..|es| - 1], es[|es| - 1];
      NonEmptyMeans(front, e);
      assert es == front + [last];
      if DistinctNames(es) {
        forall i | 0 <= i < |NonEmpty(front)|
          ensures NonEmpty(front)[i].name != last.name
        {
          NonEmptyMeans(front, NonEmpty(front)[i]);
          var k :| 0 <= k < |front| && front[k] == NonEmpty(front)[i];
          assert es[k].name != es[|es| - 1].name;
        }
      }
    }
  }

  // End to end: what the sender frames and a receiver then holds of one name. A file with bytes
  // that was missing or older has the sender's bytes and version; an empty file, and any other
  // name, is left as it was.
  lemma SyncDelivers(s: Store, es: seq<Entry>, name: string)
    requires DistinctNames(es) && forall i :: 0 <= i < |es| ==> es[i].name != ""
    ensures var t := StoreOf(Finalize(AcceptAll(Begin(s.files, s.versions), Frames(Framing(es)))));
      && (forall e :: e in es && e.name == name && e.content != [] && !UpToDate(s.versions, name, e.version) ==>
            && name in t.files && t.files[name] == e.content
            && name in t.versions && t.versions[name] == e.version)
      && ((forall e :: e in es && e.name == name ==> e.content == [] || UpToDate(s.versions, name, e.version)) ==>
            SameAt(s, t, name))
  {
    hide AcceptAll, Finalize, Frames, InstallAll, Begin, WellFramed, NonEmpty;
    EmptyFilesSendNothing(es);
    var sent := NonEmpty(es);
    var fs := Framing(sent);
    forall e
      ensures e in sent <==> e in es && e.content != []
      ensures DistinctNames(sent)
    {
      NonEmptyMeans(es, e);
    }
    forall i | 0 <= i < |fs|
      ensures WellFramed(fs[i])
    {
      assert sent[i] in sent;
      FramingIsWellFramed(sent[i]);
    }
    assert Entries(fs) == sent;
    NonEmptyMeans(es, Entry("", [], 0));
    SyncRoundTrip(s, fs);
    InstallAllMeans(s, sent, name);
  }

  // ---------- A stream that breaks off ----------

  // Entry m cut short after its first j pieces.
  function Truncated(f: Framed, j: nat): Entry
    requires j <= |f.pieces|
  {
    Entry(f.entry.name, Flatten(f.pieces[..j]), f.entry.version)
  }

  // The chunks that arrive when the stream breaks inside file f, after the files fs.
  function BrokenFrames(fs: seq<Framed>, f: Framed, j: nat): seq<SyncChunk>
    requires j <= |f.pieces|
  {
    Frames(fs) + FileFrames(f.entry, f.pieces)[..j]
  }

  // The receiver installs the unfinished file under the full version.
  lemma BrokenStreamInstallsAPrefix(s: Store, fs: seq<Framed>, f: Framed, j: nat)
    requires DistinctNames(Entries(fs + [f])) && (forall i :: 0 <= i < |fs| ==> WellFramed(fs[i])) && WellFramed(f)
    requires 1 <= j <= |f.pieces|
    ensures StoreOf(Finalize(AcceptAll(Begin(s.files, s.versions), BrokenFrames(fs, f, j)))) ==
      Install(InstallAll(s, Entries(fs)), Truncated(f, j))
  {
    var r := Begin(s.files, s.versions);
    assert forall i :: 0 <= i < |fs| ==> Entries(fs + [f])[i] == Entries(fs)[i];
    assert Entries(fs + [f])[|fs|] == f.entry;
    AcceptFiles(r, fs);
    var mid := AcceptAll(r, Frames(fs));
    AcceptAppend(r, Frames(fs), FileFrames(f.entry, f.pieces)[..j]);
    NamedOnce(fs + [f], mid.curPath);
    AcceptOneMore(mid, f, j);
  }

  lemma {:induction false} PrefixIsShorter(pieces: seq<Bytes>, j: nat)
    requires j <= |pieces| && forall i :: 0 <= i < |pieces| ==> pieces[i] != []
    ensures Flatten(pieces[..j]) == Flatten(pieces) <==> j == |pieces|
  {
    assert pieces == pieces[..j] + pieces[j..];
    FlattenAppend(pieces[..j], pieces[j..]);
    if j < |pieces| {
      assert Flatten(pieces[j..]) == pieces[j] + Flatten(pieces[j..][1..]);
      assert |Flatten(pieces)| > |Flatten(pieces[..j])|;
    } else {
      assert pieces[..j] == pieces;
    }
  }

  // What a broken stream leaves of the file it broke in: its first j pieces, under the
  // sender's version.
  lemma CutFile(s: Store, fs: seq<Framed>, f: Framed, j: nat)
    requires DistinctNames(Entries(fs + [f])) && WellFramed(f) && 1 <= j <= |f.pieces|
    requires !UpToDate(s.versions, f.entry.name, f.entry.version)
    ensures var t, n := Install(InstallAll(s, Entries(fs)), Truncated(f, j)), f.entry.name;
      && n in t.files && t.files[n] == Flatten(f.pieces[..j])
      && n in t.versions && t.versions[n] == f.entry.version
  {
    hide WellFramed, Flatten;
    var es := Entries(fs);
    assert forall i :: 0 <= i < |fs| ==> Entries(fs + [f])[i] == es[i];
    assert Entries(fs + [f])[|fs|] == f.entry;
    InstallAllMeans(s, es, f.entry.name);
    assert forall i :: 0 <= i < |es| ==> es[i].name != f.entry.name;
  }

  // After a stream broke in file f, a later complete sync skips f because its version is
  // already the sender's: the receiver ends up with the sender's bytes exactly when the
  // stream broke at the end of f.
  lemma ResyncRepairsOnlyWholeFiles(s: Store, fs: seq<Framed>, f: Framed, rest: seq<Framed>, j: nat)
    requires forall i :: 0 <= i < |fs + [f] + rest| ==> WellFramed((fs + [f] + rest)[i])
    requires DistinctNames(Entries(fs + [f] + rest))
    requires 1 <= j <= |f.pieces| && !UpToDate(s.versions, f.entry.name, f.entry.version)
    ensures
      var e := f.entry;
      var broken := StoreOf(Finalize(AcceptAll(Begin(s.files, s.versions), BrokenFrames(fs, f, j))));
      var again := StoreOf(Finalize(AcceptAll(Begin(broken.files, broken.versions), Frames(fs + [f] + rest))));
      e.name in again.files && (again.files[e.name] == e.content <==> j == |f.pieces|)
  {
    hide AcceptAll, Finalize, Frames, BrokenFrames, Install, InstallAll, Flatten, Begin;
    var all := fs + [f] + rest;
    var es := Entries(all);
    assert all[|fs|] == f && forall i :: 0 <= i < |fs| ==> all[i] == fs[i];
    assert forall i :: 0 <= i < |fs| + 1 ==> Entries(fs + [f])[i] == es[i];
    BrokenStreamInstallsAPrefix(s, fs, f, j);
    CutFile(s, fs, f, j);
    var broken := Install(InstallAll(s, Entries(fs)), Truncated(f, j));
    PrefixIsShorter(f.pieces, j);
    SyncRoundTrip(broken, all);
    InstallAllMeans(broken, es, f.entry.name);
    OnlyUpToDate(broken.versions, es, |fs|);
  }

  lemma OnlyUpToDate(versions: map<string, nat>, es: seq<Entry>, m: nat)
    requires DistinctNames(es) && m < |es| && UpToDate(versions, es[m].name, es[m].version)
    ensures forall i :: 0 <= i < |es| && es[i].name == es[m].name ==> UpToDate(versions, es[m].name, es[i].version)
  {
  }
}
