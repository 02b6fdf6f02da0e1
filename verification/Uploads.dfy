/** internal/files/upload.go: a write that arrives in pieces. The running hash is
    modelled by the bytes it was fed, which is all a saved hash stands for. */
module Uploads {
  import opened Text
  import opened Paths
  import opened Tree
  import opened Repository
  import opened Blobs
  import opened Files
  import Keys
  import Stores

  const DEFAULT_UPLOAD_TTL := 12 * 3600 * 1_000_000_000

  /** An upload's row. `digest` is None once a chunk has broken the running hash. */
  datatype Upload = Upload(l: Loc, size: int, received: int, key: string, digest: Option<string>, mime: string,
      expires: int)

  /** What the store made of one append: how far it says it is, what it read of the
      chunk, what it kept of that, and whether it failed. */
  datatype Append = Append(at: int, read: string, kept: string, failed: bool)

  /** What the store's contract allows. An offset that is not where it is is refused;
      a write cut short may have kept part of what it read, and may answer with where
      it was before; a call that fails early answers zero. */
  ghost predicate Allowed(part: Option<string>, offset: int, body: string, a: Append) {
    && a.read <= body && a.kept <= a.read
    && (part.None? ==> a.at == 0 && a.failed && a.kept == "" && a.read == "")
    && (part.Some? && offset != |part.value| ==>
        a.failed && a.kept == ""
        && (a.at == |part.value| || (a.at == 0 && a.read == "")))
    && (part.Some? && offset == |part.value| ==>
          || a.at == |part.value| + |a.kept|
          || (a.failed && a.at == |part.value|)
          || (a.failed && a.at == 0 && a.read == ""))
    && (!a.failed ==> a.kept == a.read)
  }

  /** The row after an append: the hash covers what was read and the store says what
      it accepted, and when the two part the hash is dropped. */
  function Appended(u: Upload, a: Append, now: int): Upload {
    u.(received := a.at, expires := now + DEFAULT_UPLOAD_TTL,
       digest := if u.digest.None? || a.at != u.received + |a.read| then None else Some(u.digest.value + a.read))
  }

  /** The running hash is of what has been received, and that is where the blob starts. */
  ghost predicate HashHolds(u: Upload, part: string) {
    && 0 <= u.received <= |part|
    && (u.digest.Some? ==> u.digest.value == part[..u.received])
  }

  /** A client that sends the offset the row holds, and a store that reads nothing
      of a chunk it refuses. */
  ghost predicate WellBehaved(u: Upload, part: string, offset: int, a: Append) {
    offset == u.received && (offset != |part| ==> a.read == "")
  }

  lemma AppendKeepsHash(u: Upload, part: string, offset: int, body: string, a: Append, now: int)
    requires HashHolds(u, part) && Allowed(Some(part), offset, body, a) && WellBehaved(u, part, offset, a)
    ensures HashHolds(Appended(u, a, now), part + a.kept)
    ensures HashHolds(u, part + a.kept)
  {
    assert (part + a.kept)[..u.received] == part[..u.received];
    if u.digest.Some? && a.at == u.received + |a.read| {
      if offset == |part| {
        assert a.kept == a.read;
        assert part[..u.received] == part && (part + a.kept)[..a.at] == part + a.kept;
      } else {
        assert (part + a.kept)[..a.at] == part[..u.received] && u.digest.value + a.read == u.digest.value;
      }
    }
  }

  // ----- Any number of chunks

  /** A chunk: what was sent, what came of it, and whether the row was saved after. */
  datatype Chunk = Chunk(offset: int, body: string, came: Append, saved: bool, now: int)

  datatype State = State(row: Upload, part: string)

  function Received(s: State, c: Chunk): State {
    State(if c.saved then Appended(s.row, c.came, c.now) else s.row, s.part + c.came.kept)
  }

  ghost predicate Arrives(s: State, chunks: seq<Chunk>)
    decreases |chunks|
  {
    chunks == [] ||
    (Allowed(Some(s.part), chunks[0].offset, chunks[0].body, chunks[0].came)
        && WellBehaved(s.row, s.part, chunks[0].offset, chunks[0].came)
     && Arrives(Received(s, chunks[0]), chunks[1..]))
  }

  function AllReceived(s: State, chunks: seq<Chunk>): State
    decreases |chunks|
  {
    if chunks == [] then s else AllReceived(Received(s, chunks[0]), chunks[1..])
  }

  /** Over any run of cut, retried and refused chunks and rows that were not saved,
      the running hash stays that of what the row says was received. */
  lemma {:induction false} RunKeepsHash(s: State, chunks: seq<Chunk>)
    requires HashHolds(s.row, s.part) && Arrives(s, chunks)
    ensures HashHolds(AllReceived(s, chunks).row, AllReceived(s, chunks).part)
    ensures AllReceived(s, chunks).row.size == s.row.size
    decreases |chunks|
  {
    hide Allowed, HashHolds;
    if chunks == [] {
    } else {
      AppendKeepsHash(s.row, s.part, chunks[0].offset, chunks[0].body, chunks[0].came, chunks[0].now);
      RunKeepsHash(Received(s, chunks[0]), chunks[1..]);
    }
  }

  /** Whether an upload that is asked for now may be published. */
  predicate Complete(u: Upload) {
    u.size < 0 || u.received == u.size
  }

  /** The bytes whose hash the published file gets. */
  function Hashed(u: Upload, blob: string): string {
    if u.digest.Some? then u.digest.value else blob
  }

  /** The hash is of exactly the blob when, and only when, the running hash was
      given up or the row knows of every byte the blob has. */
  lemma HashIsOfObject(u: Upload, blob: string)
    requires HashHolds(u, blob)
    ensures Hashed(u, blob) == blob <==> u.digest.None? || u.received == |blob|
  {
  }

  function Begun(l: Loc, size: int, key: string): Upload {
    Upload(l, size, 0, key, Some(""), "", 0)
  }

  /** So a file that is published has the hash of its blob, for an upload that
      said how long it would be and never grew longer. */
  lemma PublishedHash(l: Loc, size: nat, key: string, chunks: seq<Chunk>)
    requires Arrives(State(Begun(l, size, key), ""), chunks)
    requires var s := AllReceived(State(Begun(l, size, key), ""), chunks);
             Complete(s.row) && |s.part| <= size
    ensures var s := AllReceived(State(Begun(l, size, key), ""), chunks);
            Hashed(s.row, s.part) == s.part && |s.part| == size
  {
    var s := State(Begun(l, size, key), "");
    RunKeepsHash(s, chunks);
    HashIsOfObject(AllReceived(s, chunks).row, AllReceived(s, chunks).part);
  }

  // ----- None of the hypotheses can be spared

  /** An blob that outgrew a row that was not saved is published under the hash of
      its beginning -- which for a length nobody gave needs nothing else. */
  lemma OutgrownObject(size: int)
    requires size < 0
    ensures exists chunks :: var begun := State(Begun(Loc("o", "f"), size, "k"), "");
              Arrives(begun, chunks) && Complete(AllReceived(begun, chunks).row)
              && Hashed(AllReceived(begun, chunks).row, AllReceived(begun, chunks).part) != AllReceived(begun,
                  chunks).part
  {
    var begun := State(Begun(Loc("o", "f"), size, "k"), "");
    var c := Chunk(0, "x", Append(1, "x", "x", false), false, 0);
    assert [c][1..] == [];
    assert Arrives(begun, [c]);
    assert AllReceived(begun, [c]) == Received(begun, c);
  }

  /** A store that read what it refused: the lengths agree and the bytes do not. */
  lemma ReadWhatItRefused()
    ensures var u := Upload(Loc("o", "f"), 2, 1, "k", Some("a"), "", 0);
            var a := Append(2, "x", "", true);
            HashHolds(u, "ab") && Allowed(Some("ab"), 1, "x", a) && 1 == u.received && a.read != ""
            && !HashHolds(Appended(u, a, 0), "ab" + a.kept) && Complete(Appended(u, a, 0))
  {
    assert "ab"[..1] == "a" && "ab"[..2] == "ab" && "a" + "x" == "ax";
    assert Appended(Upload(Loc("o", "f"), 2, 1, "k", Some("a"), "", 0), Append(2, "x", "", true), 0).digest
        == Some("ax");
  }

  /** A client ahead of the row, and a chunk cut short by just as much. */
  lemma AheadOfTheRow()
    ensures var u := Upload(Loc("o", "f"), 3, 1, "k", Some("a"), "", 0);
            var a := Append(3, "cd", "c", true);
            HashHolds(u, "ab") && Allowed(Some("ab"), 2, "cd", a) && 2 != u.received
            && !HashHolds(Appended(u, a, 0), "ab" + a.kept) && Complete(Appended(u, a, 0))
  {
    assert "ab"[..1] == "a" && ("ab" + "c")[..3] == "abc" && "a" + "cd" == "acd";
  }

  // ----- The service

  class Resumable {
    const s: Service
    var rows: map<string, Upload>
    var parts: map<string, string>   // what the store holds of each, unseen by a listing

    constructor (s: Service)
      ensures this.s == s && rows == map[] && parts == map[]
    {
      this.s, rows, parts := s, map[], map[];
    }

    function Part(id: string): Option<string>
      reads this
    {
      if id in parts then Some(parts[id]) else None
    }

    /** Reserves a key and a row for what will arrive; nothing to a directory that
        is not there. */
    method BeginUpload(id: string, l: Loc, size: int, mime: string, key: string, now: int) returns (r: Answer<Upload>)
      requires id !in rows && id !in parts
      modifies this
      ensures r.Done? ==>
                && r.value == Upload(l, size, 0, key, Some(""), mime, now + 12 * 3600 * 1_000_000_000)
                && rows == old(rows)[id := r.value] && parts == old(parts)[id := ""] && HashHolds(r.value, parts[id])
      ensures !r.Done? ==> rows == old(rows) && parts == old(parts)
      ensures r.Refused? ==>
                if ValidPath(l.path) then Tree.RequireParent(s.repo.files, l) == Err(r.error)
                    else r.error == InvalidPath
    {
      hide ValidPath, ParentOf;
      if !ValidPath(l.path) { return Refused(InvalidPath); }
      var failed := s.RequireParent(l);
      if failed.Some? { return Refused(failed.value); }
      var started: bool := *;
      if !started { return Broken; }
      var u := Upload(l, size, 0, key, Some(""), mime, now + DEFAULT_UPLOAD_TTL);
      parts := parts[id := ""];
      var saved: bool := *;
      if !saved {
        parts := parts - {id};
        assert parts == old(parts);
        return Broken;
      }
      rows := rows[id := u];
      return Done(u);
    }

    /** The store's half of an append, with whatever the network and the disk do to it. */
    method StoreAppend(id: string, offset: int, body: string) returns (a: Append)
      modifies `parts
      ensures Allowed(old(Part(id)), offset, body, a)
      ensures parts == if id in old(parts) then old(parts)[id := old(parts)[id] + a.kept] else old(parts)
      ensures id in old(parts) && offset != |old(parts)[id]| ==> a.read == ""
    {
      var early: bool, failed: bool, stale: bool := *, *, *;
      var sent: nat, kept: nat := *, *;
      if id !in parts || early {
        a := Append(0, "", "", true);
        if id in parts { assert parts[id] + "" == parts[id]; }
        return;
      }
      var at := |parts[id]|;
      if offset != at {
        a := Append(at, "", "", true);
        assert parts[id] + "" == parts[id];
        return;
      }
      var read := if sent < |body| then body[..sent] else body;
      var took := if failed && kept < |read| then read[..kept] else read;
      a := Append(if failed && stale then at else at + |took|, read, took, failed);
      parts := parts[id := parts[id] + took];
    }

    /** Writes the next piece and answers with the upload as it now stands. */
    method AppendUpload(id: string, offset: int, body: string, now: int)
        returns (r: Answer<Upload>, ghost a: Append, ghost saved: bool)
      modifies this
      ensures id !in old(rows) ==> r == Refused(NotFound) && rows == old(rows) && parts == old(parts)
      ensures id in old(rows) ==>
                && Allowed(old(Part(id)), offset, body, a)
                && parts == (if id in old(parts) then old(parts)[id := old(parts)[id] + a.kept] else old(parts))
                && rows == (if saved then old(rows)[id := Appended(old(rows)[id], a, now)] else old(rows))
                && (r.Done? ==> saved && !a.failed && r.value == Appended(old(rows)[id], a, now))
      ensures id in old(rows) && saved ==>
                && id in rows && rows == old(rows)[id := rows[id]]
                && rows[id] == old(rows)[id].(received := a.at, expires := now + 12 * 3600 * 1_000_000_000,
                                              digest := rows[id].digest)
                && rows[id].digest == if old(rows)[id].digest.Some? && a.at == old(rows)[id].received + |a.read|
                                      then Some(old(rows)[id].digest.value + a.read) else None
      ensures id in old(rows) && id in old(parts) && offset == old(rows)[id].received
              && HashHolds(old(rows)[id], old(parts)[id]) ==>
                HashHolds(rows[id], parts[id])
    {
      hide Allowed, HashHolds;
      if id !in rows { return Refused(NotFound), Append(0, "", "", true), false; }
      var u := rows[id];
      var came := StoreAppend(id, offset, body);
      a := came;
      if id in old(parts) && offset == u.received && HashHolds(u, old(parts)[id]) {
        AppendKeepsHash(u, old(parts)[id], offset, body, came, now);
      }
      // The tee fed the hash what was read, and the counter counted it.
      var digest := if u.digest.Some? then Some(u.digest.value + came.read) else None;
      if digest.None? || came.at != u.received + |came.read| {
        u := u.(digest := None);
      } else {
        u := u.(digest := digest);
      }
      u := u.(received := came.at, expires := now + DEFAULT_UPLOAD_TTL);
      var put: bool := *;
      saved := put;
      if !put { return Broken, a, saved; }
      rows := rows[id := u];
      if came.failed { return Broken, a, saved; }
      return Done(u), a, saved;
    }

    /** Publishes an upload that is whole and forgets it. What the row says of the
        blob is so whenever the running hash was of exactly the blob. */
    method CompleteUpload(id: string, mtime: int, sniff: string -> string) returns (r: Answer<Row>)
      requires s.Valid() && (id in rows ==> s.Nobodys(rows[id].key))
      modifies this, s.repo`files, s.blobs
      ensures id !in old(rows) ==> r == Refused(NotFound)
      ensures id in old(rows) && 0 <= old(rows)[id].size != old(rows)[id].received ==> r == Refused(Conflict)
      ensures r.Done? ==>
                && id in old(rows) && id in old(parts) && Complete(old(rows)[id])
                && Published(old(rows)[id], old(parts)[id], r.value)
                && (old(rows)[id].size < 0 || old(rows)[id].received == old(rows)[id].size)
                && r.value.etag == s.digest(if old(rows)[id].digest.Some? then old(rows)[id].digest.value
                                            else old(parts)[id])
                && s.repo.files == old(s.repo.files)[old(rows)[id].l := r.value] && rows == old(rows) - {id}
                && DropsOnly(old(s.blobs.objects) - {r.value.key}, s.blobs.objects - {r.value.key},
                             Superseded(old(s.repo.files), old(rows)[id].l))
      ensures !r.Done? ==>
                && s.repo.files == old(s.repo.files) && rows == old(rows)
                && (id in rows ==> s.blobs.objects - {rows[id].key} == old(s.blobs.objects) - {rows[id].key})
      ensures id in old(rows) ==>
                var u := old(rows)[id];
                Wrote(old(s.Now()).(objects := old(s.blobs.objects) - {u.key}), s.Now(), u.l, u.key, r)
      ensures !r.Done? || Hashed(old(rows)[id], old(parts)[id]) == old(parts)[id] ==> s.Valid()
    {
      hide Sound, TreeOk, ValidPath, ParentOf, Keys.MintedShape, DropsOnly;
      if id !in rows { return Refused(NotFound); }
      var u := rows[id];
      if u.size >= 0 && u.received != u.size { return Refused(Conflict); }
      ghost var before := s.Now().(objects := s.blobs.objects - {u.key});
      WithoutIsSound(s.Now(), u.key, s.digest);
      if id !in parts { return Broken; }
      var part := parts[id];
      var published: bool, done: bool := *, *;
      if !published && !done { return Broken; }
      // Published, whether or not the store could say so.
      parts := parts - {id};
      s.blobs.objects := s.blobs.objects[u.key := Blob(part, mtime)];
      StoredIsSound(before, s.Now(), u.key, s.digest);
      if !done { return Broken; }
      var tag := "";
      if u.digest.Some? {
        tag := s.digest(u.digest.value);
      } else {
        var body := s.blobs.Get(u.key, 0);
        if body.None? { return Broken; }
        tag := s.digest(body.value);
      }
      var mime := UploadType(u, sniff);
      var f := File(u.key, |part|, mtime, tag, mime);
      Keys.MintedIsOriginal(u.key);
      var failed := s.Commit(u.l, f, before);
      if failed.Some? { return Refused(failed.value); }
      rows := rows - {id};
      return Done(f);
    }

    /** What the row of a published upload says: the whole object, and the hash of
        the bytes the running hash was fed, or of the object when it was given up. */
    ghost predicate Published(u: Upload, part: string, row: Row)
      reads s.blobs
    {
      && u.key in s.blobs.objects && s.blobs.objects[u.key].data == part
      && row.File? && row.key == u.key && row.size == |part| && row.etag == s.digest(Hashed(u, part))
    }

    /** What a PUT would have decided, from the head of the blob if it can be read. */
    method UploadType(u: Upload, sniff: string -> string) returns (mime: string)
      ensures u.mime != "" && u.mime != "application/octet-stream" ==> mime == u.mime
      ensures mime == u.mime || (u.key in s.blobs.objects && mime
              == ContentType(u.mime, sniff(s.blobs.objects[u.key].data)))
    {
      if u.mime != "" && u.mime != "application/octet-stream" { return u.mime; }
      var head := s.blobs.Get(u.key, 0);
      if head.None? { return u.mime; }
      assert s.blobs.objects[u.key].data[0..] == s.blobs.objects[u.key].data;
      return ContentType(u.mime, sniff(head.value));
    }

    /** Throws an upload away; one that is not there is nothing to do. */
    method AbortUpload(id: string) returns (ok: bool)
      modifies this
      ensures ok ==> rows == old(rows) - {id} && (id in old(rows) ==> parts == old(parts) - {id})
      ensures !ok ==> rows == old(rows) && (parts == old(parts) || parts == old(parts) - {id})
    {
      if id !in rows { assert rows - {id} == rows; return true; }
      ok := *;
      if !ok { return; }
      parts := parts - {id};
      var forgot: bool := *;
      if !forgot { return false; }
      rows := rows - {id};
    }

    /** An upload nobody came back to in time. */
    predicate Expired(id: string, now: int)
      reads this
    {
      id in rows && rows[id].expires <= now
    }

    lemma ExpiredIs(id: string, now: int)
      ensures Expired(id, now) <==> id in rows && rows[id].expires <= now
    {
    }

    /** Every such upload, each once. */
    method ExpiredUploads(now: int) returns (ids: seq<string>)
      ensures forall id :: id in ids <==> Expired(id, now)
      ensures forall i, j :: 0 <= i < j < |ids| ==> ids[i] != ids[j]
    {
      ids := [];
      var rest := rows.Keys;
      while rest != {}
        invariant rest <= rows.Keys
        invariant forall id :: id in ids <==> id in rows && id !in rest && Expired(id, now)
        invariant forall i, j :: 0 <= i < j < |ids| ==> ids[i] != ids[j]
        decreases |rest|
      {
        var id :| id in rest;
        rest := rest - {id};
        if Expired(id, now) { ids := ids + [id]; }
      }
    }

    /** Throws away the uploads nobody came back to, one at a time until one cannot be:
        all of them when it succeeds, and never another. An upload's bytes go before its
        row, so the one it stops at may have lost them. */
    method CollectUploads(now: int) returns (done: nat, ok: bool, ghost gone: set<string>)
      modifies this
      ensures rows == old(rows) - gone && done == |gone|
      ensures forall id :: id in gone ==> old(Expired(id, now)) && id !in parts
      ensures ok ==> forall id :: old(Expired(id, now)) ==> id in gone
      ensures forall id :: id in parts ==> id in old(parts) && parts[id] == old(parts)[id]
      ensures forall id :: id in old(parts) && !old(Expired(id, now)) ==> id in parts
    {
      done, ok, gone := 0, true, {};
      var expired := ExpiredUploads(now);
      assert rows - {} == rows;
      while done < |expired|
        invariant done <= |expired| && rows == old(rows) - gone && done == |gone|
        invariant forall id :: id in gone <==> id in expired[..done]
        invariant forall id :: id in gone ==> id !in parts
        invariant forall id :: id in parts ==> id in old(parts) && parts[id] == old(parts)[id]
        invariant forall id :: id in old(parts) && id !in expired ==> id in parts
      {
        var id := expired[done];
        ok := *;
        if !ok { return; }
        parts := parts - {id};
        var forgot: bool := *;
        if !forgot { return done, false, gone; }
        rows := rows - {id};
        assert expired[..done + 1] == expired[..done] + [id];
        gone, done := gone + {id}, done + 1;
      }
      assert expired[..done] == expired;
    }
  }
}
