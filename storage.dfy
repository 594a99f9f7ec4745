/**
 * The S3 storage adapter: three collections (teams, users, channels), each a
 * key prefix in one bucket. `save` writes a record at prefix + its `id`,
 * `get` reads one key, and `all` lists a prefix, fetches every listed key and
 * gathers what it fetched into a map keyed by each record's `id`.
 */
module Storage {
  import opened Wrappers
  import opened Strings

  /** A JSON scalar field of a stored record. */
  datatype Value = Int(i: int) | Str(s: string) | Bool(b: bool)

  /** A stored record: its `id` and its other fields. */
  datatype Record = Record(id: string, fields: map<string, Value>)

  datatype Collection = Teams | Users | Channels

  /** The adapter's configuration; `region` is optional. */
  datatype Config = Config(accessKey: string, secretKey: string, bucket: string, path: string, region: Option<string>)

  /** A failed S3 request: the key does not exist, or the request itself failed. */
  datatype S3Error = NoSuchKey(key: string) | RequestFailed(key: string)

  /** What a collection's `all` hands to its callback: the records, or the error with what `list` passed on. */
  datatype AllResult = Listed(records: seq<Record>) | Failed(error: S3Error, partial: Option<map<string, Record>>)

  /** `config.region || 'us-east-1'`: a missing or empty region, both falsy, falls back to `us-east-1`. */
  function Region(config: Config): (r: string)
    ensures r != ""
  {
    if config.region.Some? && config.region.value != "" then config.region.value else "us-east-1"
  }

  function CollectionName(c: Collection): string
  {
    match c
    case Teams => "teams"
    case Users => "users"
    case Channels => "channels"
  }

  /** `config.path + '/teams/'` and its two siblings. */
  function Prefix(path: string, c: Collection): string
  {
    path + "/" + CollectionName(c) + "/"
  }

  function Key(path: string, c: Collection, id: string): string
  {
    Prefix(path, c) + id
  }

  // ----- The key space -----

  /** No key of one collection lies under another collection's prefix. */
  lemma PrefixesDisjoint(path: string, c1: Collection, c2: Collection, s: string)
    requires c1 != c2
    ensures !StartsWith(Prefix(path, c1) + s, Prefix(path, c2))
  {
    var k, p := Prefix(path, c1) + s, Prefix(path, c2);
    assert k[|path| + 1] != p[|path| + 1];
  }

  /** A key names one collection and one id. */
  lemma KeyInjective(path: string, c1: Collection, id1: string, c2: Collection, id2: string)
    requires Key(path, c1, id1) == Key(path, c2, id2)
    ensures c1 == c2 && id1 == id2
  {
    if c1 != c2 {
      PrefixesDisjoint(path, c1, c2, id1);
    }
    var p := Prefix(path, c1);
    assert id1 == Key(path, c1, id1)[|p|..];
  }

  // ----- The bucket as a map from key to record -----

  /** What a collection's `get(id)` finds. */
  function Lookup(m: map<string, Record>, path: string, c: Collection, id: string): Option<Record>
  {
    if Key(path, c, id) in m then Some(m[Key(path, c, id)]) else None
  }

  /** The bucket after a collection's `save(r)`. */
  function Stored(m: map<string, Record>, path: string, c: Collection, r: Record): map<string, Record>
  {
    m[Key(path, c, r.id) := r]
  }

  /** Every record under a collection prefix carries the id its key names, as `save` leaves it. */
  ghost predicate Consistent(m: map<string, Record>, path: string)
  {
    forall k, c :: k in m && StartsWith(k, Prefix(path, c)) ==> m[k].id == k[|Prefix(path, c)|..]
  }

  /** The records of a collection whose fetch succeeds, keyed by the id their key names. */
  function View(m: map<string, Record>, path: string, c: Collection, failing: set<string>): map<string, Record>
  {
    var p := Prefix(path, c);
    var ids := set k | k in m && StartsWith(k, p) && k !in failing :: k[|p|..];
    map id | id in ids && p + id in m :: m[p + id]
  }

  /**
   * `all` as `list` builds it: every listed key whose fetch succeeds leaves
   * its record under the record's `id`, and every entry is such a record.
   */
  ghost predicate Gathered(m: map<string, Record>, prefix: string, failing: set<string>, all: map<string, Record>)
  {
    && (forall k :: k in m && StartsWith(k, prefix) && k !in failing ==> m[k].id in all)
    && (forall id :: id in all ==>
          exists k :: k in m && StartsWith(k, prefix) && k !in failing && m[k].id == id && all[id] == m[k])
  }

  /** `get(id)` after `save(r)` with `r.id == id` returns `r`. */
  lemma SaveThenGet(m: map<string, Record>, path: string, c: Collection, r: Record)
    ensures Lookup(Stored(m, path, c, r), path, c, r.id) == Some(r)
  {
  }

  /** A later save with the same id replaces the earlier one. */
  lemma SaveOverwrites(m: map<string, Record>, path: string, c: Collection, r1: Record, r2: Record)
    requires r1.id == r2.id
    ensures Stored(Stored(m, path, c, r1), path, c, r2) == Stored(m, path, c, r2)
  {
  }

  /** A save leaves every other id of its collection as it was. */
  lemma SaveKeepsOtherIds(m: map<string, Record>, path: string, c: Collection, r: Record, id: string)
    requires id != r.id
    ensures Lookup(Stored(m, path, c, r), path, c, id) == Lookup(m, path, c, id)
  {
    if Key(path, c, id) == Key(path, c, r.id) {
      KeyInjective(path, c, id, c, r.id);
    }
  }

  /** A save in one collection changes neither `get` nor `all` of another. */
  lemma SaveIsolation(m: map<string, Record>, path: string, c1: Collection, r: Record,
                      c2: Collection, id: string, failing: set<string>)
    requires c1 != c2
    ensures Lookup(Stored(m, path, c1, r), path, c2, id) == Lookup(m, path, c2, id)
    ensures View(Stored(m, path, c1, r), path, c2, failing) == View(m, path, c2, failing)
  {
    if Key(path, c2, id) == Key(path, c1, r.id) {
      KeyInjective(path, c2, id, c1, r.id);
    }
    PrefixesDisjoint(path, c1, c2, r.id);
    ViewAgrees(Stored(m, path, c1, r), m, path, c2, failing);
  }

  /**
   * A save in one collection leaves what `list` may gather for another
   * unchanged, whatever the bucket holds.
   */
  lemma SaveIsolationGathered(m: map<string, Record>, path: string, c1: Collection, r: Record,
                              c2: Collection, failing: set<string>, all: map<string, Record>)
    requires c1 != c2
    ensures Gathered(Stored(m, path, c1, r), Prefix(path, c2), failing, all)
            <==> Gathered(m, Prefix(path, c2), failing, all)
  {
    PrefixesDisjoint(path, c1, c2, r.id);
  }

  /** Two buckets that agree under a collection's prefix give that collection the same view. */
  lemma ViewAgrees(m1: map<string, Record>, m2: map<string, Record>, path: string, c: Collection, failing: set<string>)
    requires forall k :: StartsWith(k, Prefix(path, c)) ==> (k in m1 <==> k in m2)
    requires forall k :: StartsWith(k, Prefix(path, c)) && k in m1 ==> m1[k] == m2[k]
    ensures View(m1, path, c, failing) == View(m2, path, c, failing)
  {
    var p := Prefix(path, c);
    var ids1 := set k | k in m1 && StartsWith(k, p) && k !in failing :: k[|p|..];
    var ids2 := set k | k in m2 && StartsWith(k, p) && k !in failing :: k[|p|..];
    assert ids1 == ids2;
    forall id | id in ids1
      ensures (p + id in m1 <==> p + id in m2) && (p + id in m1 ==> m1[p + id] == m2[p + id])
    {
      assert (p + id)[..|p|] == p;
    }
  }

  /** A save whose key can be fetched shows up in its collection's `all` under its id. */
  lemma SaveInView(m: map<string, Record>, path: string, c: Collection, r: Record, failing: set<string>)
    requires Key(path, c, r.id) !in failing
    ensures View(Stored(m, path, c, r), path, c, failing) == View(m, path, c, failing)[r.id := r]
  {
    var p := Prefix(path, c);
    var key := Key(path, c, r.id);
    var m' := Stored(m, path, c, r);
    assert key[..|p|] == p && key[|p|..] == r.id;
    forall k | k in m' && StartsWith(k, p) && k !in failing && k != key
      ensures k[|p|..] != r.id
    {
      assert k == p + k[|p|..];
    }
  }

  /** Saves keep every record under the key its id names. */
  lemma SavePreservesConsistent(m: map<string, Record>, path: string, c: Collection, r: Record)
    requires Consistent(m, path)
    ensures Consistent(Stored(m, path, c, r), path)
  {
    var key := Key(path, c, r.id);
    forall k, c' | k in Stored(m, path, c, r) && StartsWith(k, Prefix(path, c'))
      ensures Stored(m, path, c, r)[k].id == k[|Prefix(path, c')|..]
    {
      if k == key {
        if c' != c {
          PrefixesDisjoint(path, c, c', r.id);
        }
        assert k[|Prefix(path, c)|..] == r.id;
      }
    }
  }

  /** When the bucket is consistent, what `list` gathers for a collection is exactly its view. */
  lemma GatheredIsView(m: map<string, Record>, path: string, c: Collection, failing: set<string>,
                       all: map<string, Record>)
    requires Consistent(m, path)
    requires Gathered(m, Prefix(path, c), failing, all)
    ensures all == View(m, path, c, failing)
  {
    var p := Prefix(path, c);
    var v := View(m, path, c, failing);
    forall id | id in all ensures id in v && v[id] == all[id] {
      var k :| k in m && StartsWith(k, p) && k !in failing && m[k].id == id && all[id] == m[k];
      ConsistentAt(m, path, c, k);
      InView(m, path, c, failing, k);
    }
    forall id | id in v ensures id in all {
      var k :| k in m && StartsWith(k, p) && k !in failing && k[|p|..] == id;
      ConsistentAt(m, path, c, k);
    }
    SameMap(all, v);
  }

  lemma SameMap(a: map<string, Record>, b: map<string, Record>)
    requires forall k :: k in a ==> k in b && b[k] == a[k]
    requires forall k :: k in b ==> k in a
    ensures a == b
  {
  }

  lemma ConsistentAt(m: map<string, Record>, path: string, c: Collection, k: string)
    requires Consistent(m, path) && k in m && StartsWith(k, Prefix(path, c))
    ensures m[k].id == k[|Prefix(path, c)|..]
  {
  }

  /** A fetchable key under a collection's prefix puts its record in the view under the id the key names. */
  lemma InView(m: map<string, Record>, path: string, c: Collection, failing: set<string>, k: string)
    requires k in m && StartsWith(k, Prefix(path, c)) && k !in failing
    ensures var id := k[|Prefix(path, c)|..];
            id in View(m, path, c, failing) && View(m, path, c, failing)[id] == m[k]
  {
    var p := Prefix(path, c);
    assert k == p + k[|p|..];
  }

  /**
   * One adapter instance: the configured path and bucket, and the bucket's
   * contents, which `put` changes and `get` and `list` read. Fetch and write
   * failures of the network are given as parameters: `reachable` says
   * whether a request succeeds, `failing` which object fetches of a listing fail.
   */
  class S3Storage {
    const path: string
    const bucket: string
    const region: string
    var objects: map<string, Record>

    /** The adapter over a bucket that already holds `contents`. */
    constructor (config: Config, contents: map<string, Record>)
      ensures path == config.path && bucket == config.bucket && region == Region(config)
      ensures objects == contents
    {
      path := config.path;
      bucket := config.bucket;
      region := Region(config);
      objects := contents;
    }

    /** `put(id, data)`: writes `data` at key `key`. */
    method Put(key: string, data: Record, reachable: bool) returns (err: Option<S3Error>)
      modifies this
      ensures err == if reachable then None else Some(RequestFailed(key))
      ensures objects == if reachable then old(objects)[key := data] else old(objects)
    {
      if reachable {
        objects := objects[key := data];
        err := None;
      } else {
        err := Some(RequestFailed(key));
      }
    }

    /** `get(id)`: reads key `key`. */
    method Get(key: string, reachable: bool) returns (r: Result<Record, S3Error>)
      ensures r.Success? <==> reachable && key in objects
      ensures r.Success? ==> r.value == objects[key]
      ensures r.Failure? ==> r.error == if reachable then NoSuchKey(key) else RequestFailed(key)
    {
      if !reachable {
        r := Failure(RequestFailed(key));
      } else if key in objects {
        r := Success(objects[key]);
      } else {
        r := Failure(NoSuchKey(key));
      }
    }

    /**
     * `list(prefix)`: lists the keys under `prefix` and fetches each, in no
     * particular order; each fetched record is entered as `all[obj.id] = obj`,
     * a failed fetch adds nothing, and the error passed on is that of a
     * failed fetch. A failed listing passes on no map at all.
     */
    method List(prefix: string, listReachable: bool, failing: set<string>)
      returns (err: Option<S3Error>, all: Option<map<string, Record>>)
      ensures !listReachable ==> err == Some(RequestFailed(prefix)) && all.None?
      ensures listReachable ==> all.Some? && Gathered(objects, prefix, failing, all.value)
      ensures listReachable ==>
                (err.None? <==> forall k :: k in objects && StartsWith(k, prefix) ==> k !in failing)
      ensures listReachable && err.Some? ==>
                err.value.RequestFailed? && err.value.key in objects && StartsWith(err.value.key, prefix)
                && err.value.key in failing
    {
      if !listReachable {
        return Some(RequestFailed(prefix)), None;
      }
      var todo := set k | k in objects && StartsWith(k, prefix);
      ghost var listed := todo;
      var acc: map<string, Record> := map[];
      ghost var from: map<string, string> := map[];
      err := None;
      while todo != {}
        invariant todo <= listed
        invariant forall k :: k in listed && k !in todo && k !in failing ==> objects[k].id in acc
        invariant forall id :: id in acc ==>
                    && id in from && from[id] in listed && from[id] !in todo && from[id] !in failing
                    && objects[from[id]].id == id && acc[id] == objects[from[id]]
        invariant err.None? <==> forall k :: k in listed && k !in todo ==> k !in failing
        invariant err.Some? ==>
                    err.value.RequestFailed? && err.value.key in listed && err.value.key !in todo
                    && err.value.key in failing
        decreases |todo|
      {
        var key :| key in todo;
        var r := Get(key, key !in failing);
        if r.Success? {
          var obj := r.value;
          acc := acc[obj.id := obj];
          from := from[obj.id := key];
        } else if err.None? {
          err := Some(r.error);
        }
        todo := todo - {key};
      }
      forall id | id in acc
        ensures exists k :: k in objects && StartsWith(k, prefix) && k !in failing && objects[k].id == id && acc[id] == objects[k]
      {
        assert from[id] in listed;
      }
      all := Some(acc);
    }

    /** A collection's `get(id)`. */
    method CollectionGet(c: Collection, id: string, reachable: bool) returns (r: Result<Record, S3Error>)
      ensures r.Success? <==> reachable && Lookup(objects, path, c, id).Some?
      ensures r.Success? ==> Lookup(objects, path, c, id) == Some(r.value)
      ensures !reachable ==> r == Failure(RequestFailed(Key(path, c, id)))
      ensures reachable && Lookup(objects, path, c, id).None? ==> r == Failure(NoSuchKey(Key(path, c, id)))
    {
      r := Get(Prefix(path, c) + id, reachable);
    }

    /** A collection's `save(record)`: the key comes from the record's own `id`. */
    method Save(c: Collection, record: Record, reachable: bool) returns (err: Option<S3Error>)
      modifies this
      ensures err == if reachable then None else Some(RequestFailed(Key(path, c, record.id)))
      ensures objects == if reachable then Stored(old(objects), path, c, record) else old(objects)
    {
      err := Put(Prefix(path, c) + record.id, record, reachable);
    }

    /**
     * A collection's `all`: on success the list of the gathered map's values,
     * one per id; on error the error and whatever `list` passed on, unchanged.
     */
    method All(c: Collection, listReachable: bool, failing: set<string>)
      returns (res: AllResult, ghost gathered: map<string, Record>, ghost ids: seq<string>)
      ensures !listReachable ==> res == Failed(RequestFailed(Prefix(path, c)), None)
      ensures listReachable ==> Gathered(objects, Prefix(path, c), failing, gathered)
      ensures listReachable && res.Failed? ==> res.partial == Some(gathered)
      ensures listReachable ==>
                (res.Listed? <==> forall k :: k in objects && StartsWith(k, Prefix(path, c)) ==> k !in failing)
      ensures res.Listed? ==> EnumeratesValues(res.records, ids, gathered)
    {
      var err, all := List(Prefix(path, c), listReachable, failing);
      gathered := if all.Some? then all.value else map[];
      res, ids := ObjectsToList(err, all);
    }
  }

  /** `recs` lists the values of `m` once each, in the key order `ids`. */
  ghost predicate EnumeratesValues(recs: seq<Record>, ids: seq<string>, m: map<string, Record>)
  {
    && |ids| == |recs| == |m|
    && (forall i, j :: 0 <= i < j < |ids| ==> ids[i] != ids[j])
    && (forall i :: 0 <= i < |ids| ==> ids[i] in m && recs[i] == m[ids[i]])
    && (forall id :: id in m ==> id in ids)
  }

  /**
   * `objectsToList`: on error, the error and the data passed through
   * unchanged; otherwise `Object.keys(data).map(key => data[key])`.
   */
  method ObjectsToList(err: Option<S3Error>, data: Option<map<string, Record>>)
    returns (res: AllResult, ghost ids: seq<string>)
    ensures err.Some? ==> res == Failed(err.value, data)
    ensures err.None? && data.Some? ==> res.Listed? && EnumeratesValues(res.records, ids, data.value)
    ensures err.None? && data.None? ==> res == Listed([])
  {
    if err.Some? {
      return Failed(err.value, data), [];
    }
    if data.None? {
      return Listed([]), [];
    }
    var m := data.value;
    var remaining := m.Keys;
    var recs: seq<Record> := [];
    ids := [];
    while remaining != {}
      invariant remaining <= m.Keys
      invariant |ids| == |recs| && |ids| + |remaining| == |m.Keys|
      invariant forall i, j :: 0 <= i < j < |ids| ==> ids[i] != ids[j]
      invariant forall i :: 0 <= i < |ids| ==> ids[i] in m && ids[i] !in remaining && recs[i] == m[ids[i]]
      invariant forall id :: id in m ==> id in remaining || id in ids
      decreases |remaining|
    {
      var key :| key in remaining;
      recs := recs + [m[key]];
      ids := ids + [key];
      remaining := remaining - {key};
    }
    res := Listed(recs);
  }

  /**
   * The module's factory: a missing configuration gives an empty object,
   * `null` here, with no collections.
   */
  method Open(config: Option<Config>, contents: map<string, Record>) returns (s: S3Storage?)
    ensures config.None? <==> s == null
    ensures s != null ==> fresh(s) && s.path == config.value.path && s.objects == contents
  {
    if config.None? {
      return null;
    }
    s := new S3Storage(config.value, contents);
  }
}
