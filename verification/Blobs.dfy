/** The blob store as internal/storage's interface promises it, and what it means
    for a row and its blob to agree. */
module Blobs {
  import opened Text
  import opened Tree
  import opened Repository
  import Keys
  import Stores

  datatype Blob = Blob(data: string, mtime: int)

  type Objects = map<string, Blob>

  datatype Info = Info(key: string, size: nat, mtime: int)

  predicate Describes(info: Info, objects: Objects) {
    info.key in objects && info.size == |objects[info.key].data| && info.mtime == objects[info.key].mtime
  }

  /** Every object under a prefix, each once, in no particular order. */
  ghost predicate ListsUnder(found: seq<Info>, objects: Objects, prefix: string) {
    && (forall i :: 0 <= i < |found| ==> Describes(found[i], objects) && prefix <= found[i].key)
    && (forall i, j :: 0 <= i < j < |found| ==> found[i].key != found[j].key)
    && (forall k :: k in objects && prefix <= k ==> InListing(found, k))
  }

  ghost predicate InListing(found: seq<Info>, key: string) {
    exists i :: 0 <= i < |found| && found[i].key == key
  }

  /** Any call may fail; a write or a delete that failed may have happened. */
  class Store {
    var objects: Objects

    constructor ()
      ensures objects == map[]
    {
      objects := map[];
    }

    method Put(key: string, data: string, size: int) returns (ok: bool, mtime: int)
      modifies this
      ensures ok ==> objects == old(objects)[key := Blob(data, mtime)] && (size < 0 || size == |data|)
      ensures objects - {key} == old(objects) - {key}
      ensures size >= 0 && size != |data| ==> !ok && objects == old(objects)
    {
      var done: bool := *;
      ok, mtime := *, *;
      if size >= 0 && size != |data| { return false, 0; }
      if ok || done { objects := objects[key := Blob(data, mtime)]; }
    }

    method Get(key: string, from: nat) returns (body: Option<string>)
      ensures body.Some? ==> key in objects && from <= |objects[key].data| && body.value == objects[key].data[from..]
    {
      if * { return None; }
      if key !in objects || from > |objects[key].data| { return None; }
      body := Some(objects[key].data[from..]);
    }

    method Delete(key: string) returns (ok: bool)
      modifies this
      ensures ok ==> objects == old(objects) - {key}
      ensures objects == old(objects) || objects == old(objects) - {key}
    {
      var done: bool := *;
      ok := *;
      if ok || done { objects := objects - {key}; }
    }

    method List(prefix: string) returns (found: seq<Info>, ok: bool)
      ensures ok ==> ListsUnder(found, objects, prefix)
    {
      ok := *;
      found := ListAll(objects, prefix);
    }
  }

  method ListAll(objects: Objects, prefix: string) returns (found: seq<Info>)
    ensures ListsUnder(found, objects, prefix)
  {
    found := [];
    var rest := objects.Keys;
    while rest != {}
      invariant rest <= objects.Keys
      invariant forall i :: 0 <= i < |found| ==>
                Describes(found[i], objects) && prefix <= found[i].key
                && found[i].key !in rest
      invariant forall i, j :: 0 <= i < j < |found| ==> found[i].key != found[j].key
      invariant forall k :: k in objects && prefix <= k && k !in rest ==> InListing(found, k)
      decreases |rest|
    {
      var k :| k in rest;
      ghost var before, gone := found, rest;
      rest := rest - {k};
      if prefix <= k {
        found := found + [Info(k, |objects[k].data|, objects[k].mtime)];
      }
      forall m | m in objects && prefix <= m && m !in rest ensures InListing(found, m) {
        if m == k {
          assert found[|before|].key == m;
        } else {
          assert InListing(before, m);
          var i :| 0 <= i < |before| && before[i].key == m;
          assert found[i].key == m;
        }
      }
    }
  }

  // ----- Rows and blobs together

  /** What a row says of its blob is so. */
  predicate Matches(row: Row, objects: Objects, digest: string -> string) {
    row.File? ==>
      && row.key in objects && row.size == |objects[row.key].data| && row.etag == digest(objects[row.key].data)
      && !(Keys.DERIVED_PREFIX <= row.key)
  }

  datatype Books = Books(files: Rows, trash: map<BatchId, map<string, Row>>, objects: Objects)

  ghost predicate Filed(b: Books, h: Stores.Holder, row: Row) {
    row.File? &&
    match h
    case AtRow(l) => l in b.files && b.files[l] == row
    case AtTrash(id, path) => id in b.trash && path in b.trash[id] && b.trash[id][path] == row
    case InFlight(_, _) => false
  }

  /** No two rows, deleted or not, name one blob. */
  ghost predicate OneEach(b: Books) {
    forall h1, h2, r1, r2 :: Filed(b, h1, r1) && Filed(b, h2, r2) && r1.key == r2.key ==> h1 == h2
  }

  /** Every row, deleted or not, has the size and the hash of the bytes it names. */
  ghost predicate Faithful(b: Books, digest: string -> string) {
    forall h, row :: Filed(b, h, row) ==> Matches(row, b.objects, digest)
  }

  ghost predicate Sound(b: Books, digest: string -> string) {
    OneEach(b) && Faithful(b, digest)
  }

  /** Every row there now either names a key of its own out of `added` or was there
      before, and no two of them were one. */
  ghost predicate Carried(before: Books, after: Books, origin: Stores.Holder -> Stores.Holder, added: set<string>) {
    && (forall h, row :: Filed(after, h, row) && row.key !in added ==> Filed(before, origin(h), row))
    && (forall h1, h2, r1, r2 :: Filed(after, h1, r1) && Filed(after, h2, r2) ==>
          (r1.key !in added && r2.key !in added && origin(h1) == origin(h2))
              || (r1.key in added && r1.key == r2.key) ==>
          h1 == h2)
  }

  /** What goes from the store belonged to nothing that is left. */
  ghost predicate OnlyDropped(after: Books, objects: Objects, added: set<string>) {
    forall h, row :: Filed(after, h, row) && row.key !in added && row.key in objects ==>
      row.key in after.objects && after.objects[row.key] == objects[row.key]
  }

  ghost predicate NewOnesMatch(after: Books, added: set<string>, digest: string -> string) {
    forall h, row :: Filed(after, h, row) && row.key in added ==> Matches(row, after.objects, digest)
  }

  lemma CarriedIsSound(before: Books, after: Books, origin: Stores.Holder -> Stores.Holder, added: set<string>,
                       digest: string -> string)
    requires Sound(before, digest) && Carried(before, after, origin, added)
    requires OnlyDropped(after, before.objects, added) && NewOnesMatch(after, added, digest)
    ensures Sound(after, digest)
  {
    forall h, row | Filed(after, h, row) ensures Matches(row, after.objects, digest) {
      if row.key !in added { assert Filed(before, origin(h), row); }
    }
    forall h1, h2, r1, r2 | Filed(after, h1, r1) && Filed(after, h2, r2) && r1.key == r2.key ensures h1 == h2 {
      if r1.key !in added { assert Filed(before, origin(h1), r1) && Filed(before, origin(h2), r2); }
    }
  }

  /** A blob, or something made from it. */
  predicate BelongsTo(key: string, blob: string) {
    key == blob || Keys.DerivedUnder(blob) <= key
  }

  /** What dropping some keys may take from the store: them, and what was derived from them. */
  ghost predicate DropsOnly(before: Objects, after: Objects, keys: set<string>) {
    && (forall k :: k in after ==> k in before && after[k] == before[k])
    && (forall k :: k in before && k !in keys && !DerivedFrom(k, keys) ==> k in after)
  }

  ghost predicate DerivedFrom(key: string, keys: set<string>) {
    exists k :: k in keys && Keys.DerivedUnder(k) <= key
  }

  lemma DropsCompose(a: Objects, b: Objects, c: Objects, first: set<string>, second: set<string>)
    requires DropsOnly(a, b, first) && DropsOnly(b, c, second)
    ensures DropsOnly(a, c, first + second)
  {
    forall k | DerivedFrom(k, first) || DerivedFrom(k, second) ensures DerivedFrom(k, first + second) {
      if d :| d in first && Keys.DerivedUnder(d) <= k {
        assert d in first + second;
      } else {
        var d :| d in second && Keys.DerivedUnder(d) <= k;
        assert d in first + second;
      }
    }
  }

  lemma DerivedHasPrefix(key: string, keys: set<string>)
    requires DerivedFrom(key, keys)
    ensures Keys.DERIVED_PREFIX <= key
  {
    var d :| d in keys && Keys.DerivedUnder(d) <= key;
    var n := |Keys.DERIVED_PREFIX|;
    assert Keys.DERIVED_PREFIX == Keys.DerivedUnder(d)[..n] == key[..n];
  }

  /** A key that is not derived survives a drop of others. */
  lemma DropSpares(before: Objects, after: Objects, keys: set<string>, key: string)
    requires DropsOnly(before, after, keys) && key in before && key !in keys && !(Keys.DERIVED_PREFIX <= key)
    ensures key in after && after[key] == before[key]
  {
    if DerivedFrom(key, keys) { DerivedHasPrefix(key, keys); }
  }
}
