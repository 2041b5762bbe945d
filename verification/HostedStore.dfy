/** `SupabaseFileStore`: one bucket holds every owner's files under hashed
    names, and each owner sees a private map from keys to bytes. Keys and names
    are read as their segments, the texts between the slashes. */
module HostedStore {
  import opened Alphabets
  import opened Options

  type Bytes = seq<bv8>

  type Path = seq<string>

  predicate NoSlash(s: string) { '/' !in s }

  /** `"/".join(path)`. */
  function Join(path: Path): string
    requires path != []
  {
    if |path| == 1 then path[0] else path[0] + "/" + Join(path[1..])
  }

  lemma FirstSlash(a: string, x: string, b: string, y: string)
    requires NoSlash(a) && NoSlash(b) && a + "/" + x == b + "/" + y
    ensures a == b && x == y
  {
    var s := a + "/" + x;
    assert s[|a|] == '/' && forall k :: 0 <= k < |a| ==> s[k] == a[k];
    assert s == b + "/" + y;
    assert s[|b|] == '/' && forall k :: 0 <= k < |b| ==> s[k] == b[k];
    assert |a| == |b|;
    assert s[..|a|] == a && s[..|b|] == b && s[|a| + 1..] == x && s[|b| + 1..] == y;
  }

  lemma NotOneSegment(a: string, b: string, y: string)
    requires NoSlash(a)
    ensures a != b + "/" + y
  {
    assert (b + "/" + y)[|b|] == '/';
  }

  /** A text is the join of one list of segments only. */
  lemma {:induction false} JoinedOnce(a: Path, b: Path)
    requires a != [] && b != [] && Join(a) == Join(b)
    requires (forall s :: s in a ==> NoSlash(s)) && (forall s :: s in b ==> NoSlash(s))
    ensures a == b
    decreases |a|
  {
    if |a| > 1 && |b| > 1 {
      FirstSlash(a[0], Join(a[1..]), b[0], Join(b[1..]));
      JoinedOnce(a[1..], b[1..]);
      assert a == [a[0]] + a[1..] && b == [b[0]] + b[1..];
    } else if |a| > 1 {
      NotOneSegment(b[0], a[0], Join(a[1..]));
    } else if |b| > 1 {
      NotOneSegment(a[0], b[0], Join(b[1..]));
    }
  }

  // --- keys ---

  predicate SegmentCharacter(c: char) {
    'A' <= c <= 'Z' || 'a' <= c <= 'z' || '0' <= c <= '9' || c == '.' || c == '_' || c == '-'
  }

  predicate IsSegment(s: string) {
    s != "" && s != "." && s != ".." && forall c :: c in s ==> SegmentCharacter(c)
  }

  /** `check_key`. */
  predicate IsKey(key: Path) { key != [] && forall s :: s in key ==> IsSegment(s) }

  /** `is_listed_key`, on a key: `scoring/exports`, `scoring/models`,
      `scoring/reports`, or `discovery`, any two segments and `runs`; and something
      below it. */
  predicate IsListedKey(key: Path) {
    || (|key| >= 3 && key[0] == "scoring" && key[1] in {"exports", "models", "reports"})
    || (|key| >= 5 && key[0] == "discovery" && key[3] == "runs")
  }

  predicate HexDigit(c: char) { '0' <= c <= '9' || 'a' <= c <= 'f' }

  /** SHA-256 in hex, of which only this is used: it is 64 hex digits. That two
      texts have different ones is not taken for granted. */
  ghost predicate IsHex(sha: string -> string) {
    forall k :: |sha(k)| == 64 && forall c :: c in sha(k) ==> HexDigit(c)
  }

  lemma SomeHashIsHex()
    ensures exists sha: string -> string :: IsHex(sha)
  {
    var digits := seq(64, _ => '0');
    var sha: string -> string := _ => digits;
    assert IsHex(sha);
  }

  /** Where the last dot is, or -1. */
  function LastDot(s: string): (at: int)
    ensures -1 <= at < |s|
  {
    if s == "" then -1 else if s[|s| - 1] == '.' then |s| - 1 else LastDot(s[..|s| - 1])
  }

  /** `PurePosixPath(name).suffix`. */
  function Suffix(name: string): string {
    var at := LastDot(name);
    if 0 < at < |name| - 1 then name[at..] else ""
  }

  function Last(key: Path): string
    requires key != []
  {
    key[|key| - 1]
  }

  /** `hashed_name`. */
  function HashedName(sha: string -> string, key: Path): (name: Path)
    requires key != []
    ensures |name| == |key|
  {
    if IsListedKey(key) then key else key[..|key| - 1] + [sha(Join(key)) + Suffix(Last(key))]
  }

  function ObjectName(sha: string -> string, owner: string, key: Path): Path
    requires key != []
  {
    [owner] + HashedName(sha, key)
  }

  /** A key is listed by its directory alone, so no hashed name is listed. */
  lemma HashedIsNotListed(sha: string -> string, key: Path)
    requires key != [] && !IsListedKey(key)
    ensures !IsListedKey(HashedName(sha, key))
  {
    var name := HashedName(sha, key);
    assert forall k :: 0 <= k < |key| - 1 ==> name[k] == key[k];
  }

  /** Two different keys whose texts have one hash, in one directory and with one
      extension, neither in a listed family. */
  predicate Collide(sha: string -> string, a: Path, b: Path)
    requires a != [] && b != []
  {
    && a != b && !IsListedKey(a) && !IsListedKey(b)
    && a[..|a| - 1] == b[..|b| - 1] && Suffix(Last(a)) == Suffix(Last(b)) && sha(Join(a)) == sha(Join(b))
  }

  predicate SameObject(sha: string -> string, a: Path, b: Path)
    requires a != [] && b != []
  {
    a == b || Collide(sha, a, b)
  }

  lemma LastOfName(sha: string -> string, key: Path)
    requires IsHex(sha) && key != [] && !IsListedKey(key)
    ensures var name := HashedName(sha, key);
      && name[..|name| - 1] == key[..|key| - 1]
      && Last(name)[..64] == sha(Join(key)) && Last(name)[64..] == Suffix(Last(key))
  {
  }

  /** Two keys of one owner share an object exactly when they collide. */
  lemma HashedNamesEqualIff(sha: string -> string, a: Path, b: Path)
    requires IsHex(sha) && IsKey(a) && IsKey(b)
    ensures HashedName(sha, a) == HashedName(sha, b) <==> SameObject(sha, a, b)
  {
    if !IsListedKey(a) {
      HashedIsNotListed(sha, a);
      LastOfName(sha, a);
    }
    if !IsListedKey(b) {
      HashedIsNotListed(sha, b);
      LastOfName(sha, b);
    }
  }

  lemma {:induction false} LastDotIs(s: string)
    ensures var at := LastDot(s);
      && (at >= 0 ==> s[at] == '.') && forall k :: at < k < |s| ==> s[k] != '.'
  {
    if s != "" && s[|s| - 1] != '.' { LastDotIs(s[..|s| - 1]); }
  }

  /** The extension of a file name is what follows its last dot, dot included, if
      something stands before the dot and after it. */
  lemma SuffixIs(stem: string, extension: string)
    requires '.' !in extension
    ensures Suffix(stem + "." + extension) == if stem == "" || extension == "" then "" else "." + extension
    ensures Suffix(extension) == ""
  {
    var name := stem + "." + extension;
    LastDotIs(name);
    LastDotIs(extension);
    assert name[|stem|] == '.' && forall k :: |stem| < k < |name| ==> name[k] == extension[k - |stem| - 1];
    assert LastDot(name) == |stem|;
  }

  lemma SuffixOfHashed(hash: string, suffix: string, name: string)
    requires suffix == Suffix(name) && hash != "" && '.' !in hash
    ensures Suffix(hash + suffix) == suffix
  {
    LastDotIs(name);
    if suffix == "" {
      assert hash + suffix == hash;
      SuffixIs("", hash);
    } else {
      var extension := suffix[1..];
      assert suffix == "." + extension && hash + suffix == hash + "." + extension;
      SuffixIs(hash, extension);
    }
  }

  /** The name an object gets is itself a key, of the same extension: what the
      store can hold, the backup can copy and the restore can send. */
  lemma HashedNameIsAKey(sha: string -> string, key: Path)
    requires IsHex(sha) && IsKey(key)
    ensures IsKey(HashedName(sha, key)) && Suffix(Last(HashedName(sha, key))) == Suffix(Last(key))
  {
    if !IsListedKey(key) {
      var hash, suffix := sha(Join(key)), Suffix(Last(key));
      SuffixOfHashed(hash, suffix, Last(key));
      assert IsSegment(Last(key));
      forall c | c in hash + suffix ensures SegmentCharacter(c) {
        if c in hash { assert HexDigit(c); } else { assert c in Last(key); }
      }
    }
  }

  predicate OfTheAlphabet(c: char) { c in UPPER || c in LOWER || c in DIGITS || c in "._-" }

  /** `check_key`: segments of the alphabet, none of them empty, a dot or two. */
  lemma KeyIs(key: Path)
    ensures IsKey(key) <==> key != [] && forall s :: s in key ==>
      s !in {"", ".", ".."} && forall c :: c in s ==> OfTheAlphabet(c)
  {
    forall c: char ensures SegmentCharacter(c) <==> OfTheAlphabet(c) {
      UpperIs(c);
      LowerIs(c);
      DigitIs(c);
    }
  }

  /** The families that are listed by name keep their names. */
  lemma ListedNamesAreKept(sha: string -> string, kind: string, a: string, b: string, below: Path)
    requires below != [] && kind in {"exports", "models", "reports"}
    ensures HashedName(sha, ["scoring", kind] + below) == ["scoring", kind] + below
    ensures HashedName(sha, ["discovery", a, b, "runs"] + below) == ["discovery", a, b, "runs"] + below
  {
  }

  /** Of a key outside those families only the directory, a hash and the extension
      are in the name: the file's own name is not. */
  lemma NameIsHidden(sha: string -> string, directory: Path, name: string)
    requires directory == [] || directory[0] !in {"scoring", "discovery"} || |directory| == 1
    ensures HashedName(sha, directory + [name]) == directory + [sha(Join(directory + [name])) + Suffix(name)]
  {
    var key := directory + [name];
    assert key[..|key| - 1] == directory && Last(key) == name;
    if directory != [] { assert key[0] == directory[0]; }
    assert !IsListedKey(key);
  }

  lemma NameHasNoSlash(sha: string -> string, key: Path)
    requires IsHex(sha) && IsKey(key)
    ensures forall s :: s in HashedName(sha, key) ==> NoSlash(s)
  {
    forall s | s in HashedName(sha, key) ensures NoSlash(s) {
      if s !in key {
        assert IsSegment(Last(key));
        assert forall c :: c in Suffix(Last(key)) ==> c in Last(key);
      } else {
        assert IsSegment(s);
      }
    }
  }

  /** Object names, as the texts sent to Storage, tell the owner and the key
      apart, but for keys that collide. An owner is a UUID in its canonical form,
      so it has no slash. */
  lemma ObjectNamesEqualIff(sha: string -> string, o: string, a: Path, p: string, b: Path)
    requires IsHex(sha) && IsKey(a) && IsKey(b) && NoSlash(o) && NoSlash(p)
    ensures Join(ObjectName(sha, o, a)) == Join(ObjectName(sha, p, b)) <==> o == p && SameObject(sha, a, b)
  {
    NameHasNoSlash(sha, a);
    NameHasNoSlash(sha, b);
    HashedNamesEqualIff(sha, a, b);
    var x, y := ObjectName(sha, o, a), ObjectName(sha, p, b);
    if Join(x) == Join(y) {
      JoinedOnce(x, y);
      assert x[0] == o && y[0] == p && x[1..] == HashedName(sha, a) && y[1..] == HashedName(sha, b);
    }
  }

  // --- the bucket and its private maps ---

  /** What an owner's store finds under a key. */
  function Look(objects: map<string, Bytes>, sha: string -> string, owner: string, key: Path): Option<Bytes>
    requires key != []
  {
    var name := Join(ObjectName(sha, owner, key));
    if name in objects then Some(objects[name]) else None
  }

  /** Every owner's store finds what it did, but for `owner`'s at `key`, and at
      the keys that collide with it. */
  ghost predicate OnlyAt(before: map<string, Bytes>, after: map<string, Bytes>, sha: string -> string,
                         owner: string, key: Path, result: Option<Bytes>)
    requires key != []
  {
    forall o, k :: NoSlash(o) && IsKey(k) ==>
      Look(after, sha, o, k) == if o == owner && SameObject(sha, k, key) then result else Look(before, sha, o, k)
  }

  lemma WriteIsOnlyAt(objects: map<string, Bytes>, sha: string -> string, owner: string, key: Path, data: Bytes)
    requires IsHex(sha) && IsKey(key) && NoSlash(owner)
    ensures OnlyAt(objects, objects[Join(ObjectName(sha, owner, key)) := data], sha, owner, key, Some(data))
  {
    forall o, k | NoSlash(o) && IsKey(k)
      ensures Look(objects[Join(ObjectName(sha, owner, key)) := data], sha, o, k)
           == if o == owner && SameObject(sha, k, key) then Some(data) else Look(objects, sha, o, k)
    {
      ObjectNamesEqualIff(sha, o, k, owner, key);
    }
  }

  lemma DeleteIsOnlyAt(objects: map<string, Bytes>, sha: string -> string, owner: string, key: Path)
    requires IsHex(sha) && IsKey(key) && NoSlash(owner)
    ensures OnlyAt(objects, objects - {Join(ObjectName(sha, owner, key))}, sha, owner, key, None)
  {
    forall o, k | NoSlash(o) && IsKey(k)
      ensures Look(objects - {Join(ObjectName(sha, owner, key))}, sha, o, k)
           == if o == owner && SameObject(sha, k, key) then None else Look(objects, sha, o, k)
    {
      ObjectNamesEqualIff(sha, o, k, owner, key);
    }
  }

  predicate AreKeys(keys: set<Path>) { forall k :: k in keys ==> IsKey(k) }

  /** What the owner's store finds under each of the keys in use. */
  function Found(objects: map<string, Bytes>, sha: string -> string, owner: string, keys: set<Path>)
    : map<Path, Option<Bytes>>
    requires AreKeys(keys)
  {
    map k | k in keys :: Look(objects, sha, owner, k)
  }

  function Held(found: map<Path, Option<Bytes>>): map<Path, Bytes> {
    map k | k in found && found[k].Some? :: found[k].value
  }

  /** An owner's private map, on the keys in use. */
  function Private(objects: map<string, Bytes>, sha: string -> string, owner: string, keys: set<Path>): map<Path, Bytes>
    requires AreKeys(keys)
  {
    Held(Found(objects, sha, owner, keys))
  }

  function Updated(held: map<Path, Bytes>, key: Path, result: Option<Bytes>): map<Path, Bytes> {
    match result
    case Some(data) => held[key := data]
    case None => held - {key}
  }

  ghost predicate NoCollision(sha: string -> string, keys: set<Path>)
    requires AreKeys(keys)
  {
    forall a, b :: a in keys && b in keys ==> !Collide(sha, a, b)
  }

  lemma FoundAfter(before: map<string, Bytes>, after: map<string, Bytes>, sha: string -> string, owner: string,
                   key: Path, result: Option<Bytes>, other: string, k: Path)
    requires IsKey(key) && IsKey(k) && !Collide(sha, k, key) && NoSlash(other)
    requires OnlyAt(before, after, sha, owner, key, result)
    ensures Look(after, sha, other, k) == if other == owner && k == key then result else Look(before, sha, other, k)
  {
  }

  lemma HeldUpdated(found: map<Path, Option<Bytes>>, key: Path, result: Option<Bytes>)
    ensures Held(found[key := result]) == Updated(Held(found), key, result)
  {
  }

  lemma FoundMapAfter(before: map<string, Bytes>, after: map<string, Bytes>, sha: string -> string, owner: string,
                      key: Path, result: Option<Bytes>, other: string, keys: set<Path>)
    requires key in keys && AreKeys(keys) && NoCollision(sha, keys) && NoSlash(other)
    requires OnlyAt(before, after, sha, owner, key, result)
    ensures Found(after, sha, other, keys)
         == if other == owner then Found(before, sha, other, keys)[key := result] else Found(before, sha, other, keys)
  {
    forall k | k in keys
      ensures Look(after, sha, other, k) == if other == owner && k == key then result else Look(before, sha, other, k)
    {
      FoundAfter(before, after, sha, owner, key, result, other, k);
    }
  }

  /** Where no two keys in use collide, what `OnlyAt` says of one operation is an
      update of its owner's private map at its key, and no other owner's private
      map changes. */
  lemma OnlyThatPrivateMap(before: map<string, Bytes>, after: map<string, Bytes>, sha: string -> string, owner: string,
                           key: Path, result: Option<Bytes>, other: string, keys: set<Path>)
    requires key in keys && AreKeys(keys) && NoCollision(sha, keys) && NoSlash(other)
    requires OnlyAt(before, after, sha, owner, key, result)
    ensures Private(after, sha, other, keys)
         == if other == owner then Updated(Private(before, sha, other, keys), key, result)
            else Private(before, sha, other, keys)
  {
    FoundMapAfter(before, after, sha, owner, key, result, other, keys);
    HeldUpdated(Found(before, sha, other, keys), key, result);
  }

  /** Only there: where two keys collide, a write at one is found at the other. */
  lemma CollidingKeysAreOneObject(objects: map<string, Bytes>, sha: string -> string, owner: string, a: Path, b: Path,
                                  data: Bytes)
    requires IsHex(sha) && IsKey(a) && IsKey(b) && NoSlash(owner) && Collide(sha, a, b)
    ensures Private(objects[Join(ObjectName(sha, owner, a)) := data], sha, owner, {a, b}) == map[a := data, b := data]
  {
    ObjectNamesEqualIff(sha, owner, a, owner, b);
  }

  // --- the operations ---

  const SIZE_LIMIT := 6_000_000
  const CONTENT_TYPES: set<string> := {".pdf", ".md", ".html", ".json", ".jsonl"}

  datatype Error = InvalidKey | WrongType | TooLarge | Denied | Unavailable | Refused(status: nat)

  /** Why an upload is refused before any request. */
  function Refusal(key: Path, size: nat): Option<Error>
    requires key != []
  {
    if !IsKey(key) then Some(InvalidKey)
    else if Suffix(Last(key)) !in CONTENT_TYPES then Some(WrongType)
    else if size > SIZE_LIMIT then Some(TooLarge)
    else None
  }

  lemma TypesAre(extension: string)
    ensures "." + extension in CONTENT_TYPES <==> extension in {"pdf", "md", "html", "json", "jsonl"}
  {
    WithDot(extension, "pdf", ".pdf");
    WithDot(extension, "md", ".md");
    WithDot(extension, "html", ".html");
    WithDot(extension, "json", ".json");
    WithDot(extension, "jsonl", ".jsonl");
  }

  lemma WithDot(a: string, b: string, dotted: string)
    requires dotted == "." + b
    ensures "." + a == dotted <==> a == b
  {
    assert ("." + a)[1..] == a && dotted[1..] == b;
  }

  /** A file is taken exactly when its name is a key that ends in one of the five
      extensions, with a name before it, and it is six megabytes at most. */
  lemma TakenIff(key: Path, stem: string, extension: string, size: nat)
    requires key != [] && Last(key) == stem + "." + extension && '.' !in extension
    ensures Refusal(key, size).None? <==>
      IsKey(key) && stem != "" && extension in {"pdf", "md", "html", "json", "jsonl"} && size <= 6_000_000
  {
    SuffixIs(stem, extension);
    TypesAre(extension);
    assert "" !in CONTENT_TYPES;
  }

  /** `storage_error`: the error for an answer that is neither success nor
      absence. */
  function ErrorFor(status: nat): Error {
    if status == 401 || status == 403 then Denied
    else if status == 413 then TooLarge
    else if status >= 500 then Unavailable
    else Refused(status)
  }

  /** A caller that meets an error knows the answer's kind from it. */
  lemma ErrorTells(status: nat)
    ensures (ErrorFor(status) == Denied <==> status in {401, 403}) && (ErrorFor(status) == TooLarge <==> status == 413)
    ensures (ErrorFor(status) == Unavailable <==> status >= 500)
    ensures ErrorFor(status).Refused? ==> ErrorFor(status).status == status
  {
  }

  /** How Storage answers one request it accepts or not. Without an answer, or
      with a server error, the request may have taken effect all the same. */
  datatype Reply = Done | NoAnswer(applied: bool) | Status(status: nat, applied: bool)

  function Applied(reply: Reply): bool { reply.Done? || reply.applied }

  function ReplyError(reply: Reply): Error
    requires !reply.Done?
  {
    if reply.NoAnswer? then Unavailable else ErrorFor(reply.status)
  }

  datatype Result<T> = Ok(value: T) | Err(error: Error)

  class Bucket {
    var objects: map<string, Bytes>
    constructor () ensures objects == map[] { objects := map[]; }
  }

  class SupabaseStore {
    const bucket: Bucket
    const owner: string
    const sha: string -> string

    constructor (bucket: Bucket, owner: string, sha: string -> string)
      requires IsHex(sha) && NoSlash(owner)
      ensures this.bucket == bucket && this.owner == owner && this.sha == sha && Valid()
    {
      this.bucket, this.owner, this.sha := bucket, owner, sha;
    }

    ghost predicate Valid() { IsHex(sha) && NoSlash(owner) }

    method Read(key: Path, reply: Reply) returns (r: Result<Option<Bytes>>)
      requires Valid() && key != []
      ensures r == if !IsKey(key) then Err(InvalidKey)
                   else if reply.Done? then Ok(Look(bucket.objects, sha, owner, key))
                   else Err(ReplyError(reply))
    {
      if !IsKey(key) { return Err(InvalidKey); }
      if !reply.Done? { return Err(ReplyError(reply)); }
      var name := Join(ObjectName(sha, owner, key));
      r := Ok(if name in bucket.objects then Some(bucket.objects[name]) else None);
    }

    /** Replaces the file, whole or not at all. */
    method Put(key: Path, data: Bytes, reply: Reply) returns (r: Result<()>)
      requires Valid() && key != []
      modifies bucket
      ensures Refusal(key, |data|).Some? ==>
        r == Err(Refusal(key, |data|).value) && bucket.objects == old(bucket.objects)
      ensures Refusal(key, |data|).None? ==>
        && r == (if reply.Done? then Ok(()) else Err(ReplyError(reply)))
        && if Applied(reply) then OnlyAt(old(bucket.objects), bucket.objects, sha, owner, key, Some(data))
           else bucket.objects == old(bucket.objects)
    {
      if Refusal(key, |data|).Some? { return Err(Refusal(key, |data|).value); }
      if Applied(reply) {
        WriteIsOnlyAt(bucket.objects, sha, owner, key, data);
        bucket.objects := bucket.objects[Join(ObjectName(sha, owner, key)) := data];
      }
      r := if reply.Done? then Ok(()) else Err(ReplyError(reply));
    }

    /** Uploads only when no object is there: True when stored, False when one
        is, which is left as it was. */
    method Create(key: Path, data: Bytes, reply: Reply) returns (r: Result<bool>)
      requires Valid() && key != []
      modifies bucket
      ensures Refusal(key, |data|).Some? ==>
        r == Err(Refusal(key, |data|).value) && bucket.objects == old(bucket.objects)
      ensures Refusal(key, |data|).None? ==>
        var free := old(Look(bucket.objects, sha, owner, key)).None?;
        && r == (if reply.Done? then Ok(free) else Err(ReplyError(reply)))
        && if Applied(reply) && free then OnlyAt(old(bucket.objects), bucket.objects, sha, owner, key, Some(data))
           else bucket.objects == old(bucket.objects)
    {
      if Refusal(key, |data|).Some? { return Err(Refusal(key, |data|).value); }
      var name := Join(ObjectName(sha, owner, key));
      var free := name !in bucket.objects;
      if Applied(reply) && free {
        WriteIsOnlyAt(bucket.objects, sha, owner, key, data);
        bucket.objects := bucket.objects[name := data];
      }
      r := if reply.Done? then Ok(free) else Err(ReplyError(reply));
    }

    /** Reads, adds, uploads the whole. */
    method Append(key: Path, text: Bytes, reading: Reply, reply: Reply) returns (r: Result<()>)
      requires Valid() && key != []
      modifies bucket
      ensures var before := old(Look(bucket.objects, sha, owner, key));
        var whole := (if before.Some? then before.value else []) + text;
        if r.Ok? then OnlyAt(old(bucket.objects), bucket.objects, sha, owner, key, Some(whole))
        else bucket.objects == old(bucket.objects)
             || OnlyAt(old(bucket.objects), bucket.objects, sha, owner, key, Some(whole))
      ensures var before := old(Look(bucket.objects, sha, owner, key));
        var size := |text| + if before.Some? then |before.value| else 0;
        r.Ok? <==> Refusal(key, size).None? && reading.Done? && reply.Done?
    {
      if Refusal(key, |text|).Some? { return Err(Refusal(key, |text|).value); }
      var before := Read(key, reading);
      if before.Err? { return Err(before.error); }
      r := Put(key, (if before.value.Some? then before.value.value else []) + text, reply);
    }

    /** Removes the file; an absent one is not an error. */
    method Delete(key: Path, reply: Reply) returns (r: Result<()>)
      requires Valid() && key != []
      modifies bucket
      ensures r == if !IsKey(key) then Err(InvalidKey) else if reply.Done? then Ok(()) else Err(ReplyError(reply))
      ensures if IsKey(key) && Applied(reply) then OnlyAt(old(bucket.objects), bucket.objects, sha, owner, key, None)
              else bucket.objects == old(bucket.objects)
    {
      if !IsKey(key) { return Err(InvalidKey); }
      if Applied(reply) {
        DeleteIsOnlyAt(bucket.objects, sha, owner, key);
        bucket.objects := bucket.objects - {Join(ObjectName(sha, owner, key))};
      }
      r := if reply.Done? then Ok(()) else Err(ReplyError(reply));
    }
  }
}
