/** What the erasure of an account comes to for the store that wrote it: every
    object of the owner goes, whatever its key, and no one else's. */
module AccountErasure {
  import opened Options
  import opened HostedStore
  import Walks = PrefixWalk

  /** Whatever key the object was stored under, the walk of its owner's prefix
      follows its name. */
  lemma StoredIsReached(sha: string -> string, owner: string, key: Path)
    requires IsHex(sha) && IsKey(key)
    ensures forall names: set<Path> :: ObjectName(sha, owner, key) in names ==>
      ObjectName(sha, owner, key) in Walks.Objects(names, [owner])
  {
    var n := ObjectName(sha, owner, key);
    HashedNameIsAKey(sha, key);
    assert n[..1] == [owner];
    forall k | 1 <= k < |n| ensures Walks.Walked(n[k]) {
      assert n[k] in HashedName(sha, key) && IsSegment(n[k]);
    }
  }

  /** `object_names`, for one owner: each object under a key of the owner's is
      found, once, and only the owner's. */
  method ObjectNames(ghost names: set<Path>, listing: Path -> seq<Walks.Entry>, owner: string)
    returns (found: seq<Path>)
    requires Walks.Lists(names, listing)
    ensures forall i, j :: 0 <= i < j < |found| ==> found[i] != found[j]
    ensures forall n :: n in found ==> n in names && n != [] && n[0] == owner
    ensures forall sha, key :: IsHex(sha) && IsKey(key) && ObjectName(sha, owner, key) in names ==>
      ObjectName(sha, owner, key) in found
  {
    found := Walks.Walk(names, listing, [owner]);
    forall sha, key | IsHex(sha) && IsKey(key) && ObjectName(sha, owner, key) in names
      ensures ObjectName(sha, owner, key) in found
    {
      StoredIsReached(sha, owner, key);
    }
    forall n | n in found ensures n in names && n != [] && n[0] == owner {
      assert n[..1] == [owner];
    }
  }

  /** `delete_everything`, for one owner. */
  method Erase(bucket: Walks.Bucket, listing: Path -> seq<Walks.Entry>, owner: string, applied: nat -> bool,
               answered: nat -> bool)
    returns (removed: Walks.Removal)
    requires Walks.Lists(bucket.names, listing)
    modifies bucket
    ensures bucket.names <= old(bucket.names)
    ensures forall n :: n in old(bucket.names) && (n == [] || n[0] != owner) ==> n in bucket.names
    ensures removed.All? ==> forall sha, key :: IsHex(sha) && IsKey(key) ==>
      ObjectName(sha, owner, key) !in bucket.names
    ensures (forall k :: applied(k) && answered(k)) ==> removed.All?
  {
    removed := bucket.DeleteEverything(listing, [owner], applied, answered);
    forall sha, key | removed.All? && IsHex(sha) && IsKey(key) ensures ObjectName(sha, owner, key) !in bucket.names {
      StoredIsReached(sha, owner, key);
    }
    forall n | n in old(bucket.names) && (n == [] || n[0] != owner) ensures n in bucket.names {
      assert n != [] ==> n[..1] != [owner];
    }
  }

  /** The bucket's objects, by the texts Storage knows their names as. */
  ghost predicate Holds(objects: map<string, Bytes>, names: set<Path>) {
    && (forall n :: n in names ==> n != [] && forall s :: s in n ==> NoSlash(s))
    && (forall name :: name in objects <==> exists n :: n in names && Join(n) == name)
  }

  /** Once its name is gone a store finds nothing under the key. */
  lemma ErasedIsNotFound(objects: map<string, Bytes>, names: set<Path>, sha: string -> string, owner: string, key: Path)
    requires Holds(objects, names) && IsHex(sha) && IsKey(key) && NoSlash(owner)
    requires ObjectName(sha, owner, key) !in names
    ensures Look(objects, sha, owner, key) == None
  {
    var name := ObjectName(sha, owner, key);
    NameHasNoSlash(sha, key);
    if Join(name) in objects {
      var n :| n in names && Join(n) == Join(name);
      JoinedOnce(n, name);
    }
  }

  /** After an erasure that ended the owner's store finds nothing, under any key. */
  lemma ErasedAccountIsEmpty(objects: map<string, Bytes>, names: set<Path>, sha: string -> string, owner: string)
    requires Holds(objects, names) && IsHex(sha) && NoSlash(owner)
    requires forall key :: IsKey(key) ==> ObjectName(sha, owner, key) !in names
    ensures forall key :: IsKey(key) ==> Look(objects, sha, owner, key) == None
  {
    forall key | IsKey(key) ensures Look(objects, sha, owner, key) == None {
      ErasedIsNotFound(objects, names, sha, owner, key);
    }
  }
}
