/** internal/files/files.go, blobReader: ranged reads of a blob turned into a reader
    that seeks. */
module Reader {
  import opened Text
  import opened Blobs

  datatype Whence = SeekStart | SeekCurrent | SeekEnd | Other

  /** An open range: the bytes it has yet to give. */
  datatype Body = Body(rest: string)

  /** Where a seek asks to be, if it asks for anything. */
  function Target(offset: int, size: int, move: int, whence: Whence): Option<int> {
    var abs := match whence
      case SeekStart => move
      case SeekCurrent => offset + move
      case SeekEnd => size + move
      case Other => -1;
    if abs < 0 then None else Some(abs)
  }

  datatype Ended = More | Eof | Failed

  class BlobReader {
    const blobs: Store
    const key: string
    const size: nat
    ghost const data: string   // what the key holds: a blob is written once
    var offset: nat
    var body: Option<Body>

    constructor (blobs: Store, key: string, size: nat, ghost data: string)
      ensures Valid() && this.blobs == blobs && this.key == key && this.size == size && this.data == data
      ensures offset == 0 && body.None?
    {
      this.blobs, this.key, this.size, this.data := blobs, key, size, data;
      offset, body := 0, None;
    }

    /** An open range is where the next read is to be. */
    ghost predicate Valid()
      reads this
    {
      body.Some? ==> offset <= |data| && body.value.rest == data[offset..]
    }

    /** The blob is what it was, if it is still there. */
    ghost predicate Stands()
      reads this, blobs
    {
      key in blobs.objects ==> blobs.objects[key].data == data
    }

    /** Whatever was opened, dropped and reopened before: the bytes given are the
        blob's at the offset, and the offset has moved past them. */
    method Read(want: nat) returns (got: string, ended: Ended)
      requires Valid() && Stands()
      modifies this
      ensures Valid()
      ensures |got| <= want && offset == old(offset) + |got|
      ensures offset <= |data| || got == ""
      ensures got == "" || got == data[old(offset)..offset]
      ensures ended.Eof? ==> got == "" && (size <= |data| ==> old(offset) >= size)
      ensures ended.More? && want > 0 ==> got != ""
      ensures old(offset) >= size ==> ended.Eof? && got == ""
    {
      if offset >= size { return "", Eof; }
      if body.None? {
        var range := blobs.Get(key, offset);
        if range.None? { return "", Failed; }
        body := Some(Body(range.value));
      }
      var n: nat, broken: bool := *, *;
      var rest := body.value.rest;
      var most := if want < |rest| then want else |rest|;
      // A range gives something of what it has left, or says why not.
      var give := if n < most && (n > 0 || broken) then n else most;
      got := rest[..give];
      body := Some(Body(rest[give..]));
      offset := offset + give;
      ended := if broken then Failed else if rest == "" then Eof else More;
    }

    /** Moves the offset and fetches nothing; a refused seek leaves it where it was. */
    method Seek(move: int, whence: Whence) returns (at: Option<int>)
      requires Valid()
      modifies this
      ensures Valid()
      ensures Target(old(offset), size, move, whence).None? ==> at.None?
      ensures at.Some? ==> at == Target(old(offset), size, move, whence) && offset == at.value
      ensures at.None? ==> offset == old(offset)
      ensures at.Some? ==> 0 <= at.value && at.value == match whence
                                                        case SeekStart => move
                                                        case SeekCurrent => old(offset) + move
                                                        case SeekEnd => size + move
                                                        case Other => -1
    {
      var abs: int;
      match whence {
        case SeekStart => abs := move;
        case SeekCurrent => abs := offset + move;
        case SeekEnd => abs := size + move;
        case Other => return None;
      }
      if abs < 0 { return None; }
      if abs != offset {
        var closed := CloseBody();
        if !closed { return None; }
        offset := abs;
      }
      return Some(abs);
    }

    method CloseBody() returns (ok: bool)
      modifies `body
      ensures body.None? && (old(body).None? ==> ok)
    {
      if body.None? { return true; }
      body := None;
      ok := *;
    }

    /** Reading to the end gives everything from the offset on, in whatever pieces. */
    method Drain(buffer: nat) returns (all: string, ok: bool)
      requires Valid() && Stands() && size == |data| && buffer > 0
      modifies this
      ensures Valid()
      ensures ok && old(offset) <= size ==> all == data[old(offset)..]
      ensures ok && old(offset) > size ==> all == ""
    {
      all := "";
      while true
        invariant Valid() && offset >= old(offset) && offset == old(offset) + |all|
        invariant old(offset) <= size ==> offset <= size && all == data[old(offset)..offset]
        invariant old(offset) > size ==> all == ""
        decreases size - offset
      {
        ghost var from := offset;
        var got, ended := Read(buffer);
        if old(offset) <= size && got != "" {
          assert data[old(offset)..from] + data[from..offset] == data[old(offset)..offset];
        }
        all := all + got;
        if ended.Failed? { return all, false; }
        if ended.Eof? { return all, true; }
      }
    }
  }
}
