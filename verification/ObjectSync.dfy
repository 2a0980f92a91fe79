/**
 Copying every object of one object store to another (pkg/objectstore/migrate.go), and why a copy that
 failed half way can simply be run again.
 */
module ObjectSync {

  /** An object as the source lists and serves it. */
  datatype Object = Object(data: string, contentType: string, contentEncoding: string)

  type Bucket = map<string, Object>

  type Store = map<string, Bucket>

  /** The calls one copy makes. `List` fails by ending the listing early with an error entry, for which
      the following GetObject of an empty key fails. */
  datatype Call = Connect | ListBuckets | BucketExists(bucket: string) | MakeBucket(bucket: string)
                | List(bucket: string) | Get(bucket: string, key: string) | Put(bucket: string, key: string)

  /** A bucket that does not exist holds nothing. */
  function In(store: Store, bucket: string): Bucket {
    if bucket in store then store[bucket] else map[]
  }

  /** The destination overridden by the source: all buckets of both, the source's objects winning. */
  function Overlay(src: Store, dst: Store): Store {
    map b | b in src.Keys + dst.Keys :: In(dst, b) + In(src, b)
  }

  /** `mid` is `before` with some of the source's objects copied over it and nothing else touched. */
  ghost predicate PartialBucket(src: Bucket, before: Bucket, mid: Bucket) {
    && before.Keys <= mid.Keys <= before.Keys + src.Keys
    && (forall k :: k in mid ==> (k in src && mid[k] == src[k]) || (k in before && mid[k] == before[k]))
  }

  ghost predicate Partial(src: Store, before: Store, mid: Store) {
    && before.Keys <= mid.Keys <= before.Keys + src.Keys
    && forall b :: b in mid ==> PartialBucket(In(src, b), In(before, b), mid[b])
  }

  /** A stopped copy of one bucket: nothing happened, or that bucket alone is partly copied. */
  ghost predicate PartialStep(src: Store, before: Store, mid: Store, bucket: string) {
    || mid == before
    || (bucket in mid && mid == before[bucket := mid[bucket]]
        && PartialBucket(In(src, bucket), In(before, bucket), mid[bucket]))
  }

  /** The objects copied so far. */
  function Copied(objects: Bucket, done: set<string>): Bucket {
    map k | k in objects && k in done :: objects[k]
  }

  lemma CopyOne(objects: Bucket, before: Bucket, done: set<string>, key: string)
    requires key in objects
    ensures (before + Copied(objects, done))[key := objects[key]] == before + Copied(objects, done + {key})
  {
  }

  lemma CopyStep(start: Store, bucket: string, objects: Bucket, before: Bucket, done: set<string>, key: string)
    requires key in objects
    ensures var s := start[bucket := before + Copied(objects, done)];
            s[bucket := s[bucket][key := objects[key]]] == start[bucket := before + Copied(objects, done + {key})]
  {
    CopyOne(objects, before, done, key);
  }

  lemma CopiedIsPartial(objects: Bucket, before: Bucket, done: set<string>)
    ensures PartialBucket(objects, before, before + Copied(objects, done))
    ensures done == objects.Keys ==> Copied(objects, done) == objects
  {
  }

  class ObjectStore {
    var buckets: Store

    constructor (buckets: Store)
      ensures this.buckets == buckets
    {
      this.buckets := buckets;
    }
  }

  /** None of the calls that copying a bucket makes fails. */
  predicate BucketCallsOk(bucket: string, objects: Bucket, there: bool, faults: set<Call>) {
    && BucketExists(bucket) !in faults && (!there ==> MakeBucket(bucket) !in faults) && List(bucket) !in faults
    && forall k :: k in objects ==> Get(bucket, k) !in faults && Put(bucket, k) !in faults
  }

  predicate BucketsOk(src: Store, names: set<string>, dst: Store, faults: set<Call>) {
    forall b :: b in names && b in src ==> BucketCallsOk(b, src[b], b in dst, faults)
  }

  lemma OneMoreOk(src: Store, names: set<string>, dst: Store, faults: set<Call>, bucket: string)
    requires bucket in src
    ensures BucketsOk(src, names + {bucket}, dst, faults)
       <==> BucketsOk(src, names, dst, faults) && BucketCallsOk(bucket, src[bucket], bucket in dst, faults)
  {
    assert bucket in names + {bucket};
  }

  lemma OneNotOk(src: Store, dst: Store, faults: set<Call>, bucket: string)
    requires bucket in src && !BucketCallsOk(bucket, src[bucket], bucket in dst, faults)
    ensures !BucketsOk(src, src.Keys, dst, faults)
  {
  }

  /** The copying loop of syncBucket: objects arrive in any order and the first failing call ends it. */
  method CopyObjects(dst: ObjectStore, bucket: string, objects: Bucket, listed: set<string>, faults: set<Call>)
    returns (count: nat, ok: bool, ghost done: set<string>)
    requires bucket in dst.buckets && listed <= objects.Keys
    modifies dst
    ensures dst.buckets == old(dst.buckets)[bucket := old(dst.buckets)[bucket] + Copied(objects, done)]
    ensures ok ==> done == listed && count == |listed|
    ensures ok <==> forall k :: k in listed ==> Get(bucket, k) !in faults && Put(bucket, k) !in faults
  {
    count := 0;
    done := {};
    ghost var start, before := dst.buckets, dst.buckets[bucket];
    var todo := listed;
    assert before + Copied(objects, {}) == before;
    while todo != {}
      invariant todo <= listed && done == listed - todo
      invariant dst.buckets == start[bucket := before + Copied(objects, done)]
      invariant count == |done|
      invariant forall k :: k in done ==> Get(bucket, k) !in faults && Put(bucket, k) !in faults
      decreases todo
    {
      var key :| key in todo;
      if Get(bucket, key) in faults || Put(bucket, key) in faults {
        return count, false, done;
      }
      CopyStep(start, bucket, objects, before, done, key);
      assert key !in done && listed - (todo - {key}) == done + {key};
      dst.buckets := dst.buckets[bucket := dst.buckets[bucket][key := objects[key]]];
      todo := todo - {key};
      done := done + {key};
      count := count + 1;
    }
    return count, true, done;
  }

  method SyncBucket(src: ObjectStore, dst: ObjectStore, bucket: string, faults: set<Call>)
    returns (count: nat, ok: bool)
    requires src != dst
    modifies dst
    ensures ok ==> dst.buckets == old(dst.buckets)[bucket := In(old(dst.buckets), bucket) + In(src.buckets, bucket)]
    ensures ok ==> count == |In(src.buckets, bucket)|
    ensures !ok ==> PartialStep(src.buckets, old(dst.buckets), dst.buckets, bucket)
    ensures ok <==> BucketCallsOk(bucket, In(src.buckets, bucket), bucket in old(dst.buckets), faults)
  {
    if BucketExists(bucket) in faults {
      return 0, false;
    }
    if bucket !in dst.buckets {
      if MakeBucket(bucket) in faults {
        return 0, false;
      }
      dst.buckets := dst.buckets[bucket := map[]];
    }
    var objects := In(src.buckets, bucket);
    var listed := objects.Keys;
    if List(bucket) in faults {
      listed :| listed <= objects.Keys;
    }
    ghost var done;
    count, ok, done := CopyObjects(dst, bucket, objects, listed, faults);
    ok := ok && List(bucket) !in faults;
    CopiedIsPartial(objects, In(old(dst.buckets), bucket), done);
  }

  /** The source cut down to some of its buckets. */
  function Only(src: Store, names: set<string>): Store {
    map b | b in src && b in names :: src[b]
  }

  lemma SomeBuckets(src: Store, before: Store, done: set<string>)
    ensures Partial(src, before, Overlay(Only(src, done), before))
  {
    var mid := Overlay(Only(src, done), before);
    forall b | b in mid ensures PartialBucket(In(src, b), In(before, b), mid[b]) {
      assert mid[b] == In(before, b) + if b in done then In(src, b) else map[];
    }
  }

  lemma NextBucket(src: Store, before: Store, done: set<string>, bucket: string)
    requires bucket in src && bucket !in done
    ensures var mid := Overlay(Only(src, done), before);
            mid[bucket := In(mid, bucket) + src[bucket]] == Overlay(Only(src, done + {bucket}), before)
  {
    var mid, next := Overlay(Only(src, done), before), Overlay(Only(src, done + {bucket}), before);
    var step := mid[bucket := In(mid, bucket) + src[bucket]];
    forall b ensures b in step <==> b in next
             ensures b in step ==> step[b] == next[b]
    {
      NextBucketAt(src, before, done, bucket, b);
    }
  }

  lemma NextBucketAt(src: Store, before: Store, done: set<string>, bucket: string, b: string)
    requires bucket in src && bucket !in done
    ensures var mid, next := Overlay(Only(src, done), before), Overlay(Only(src, done + {bucket}), before);
            var step := mid[bucket := In(mid, bucket) + src[bucket]];
            (b in step <==> b in next) && (b in step ==> step[b] == next[b])
  {
    var one, two := Only(src, done), Only(src, done + {bucket});
    if b == bucket {
      NothingOver(before);
      assert In(Overlay(one, before), bucket) == In(before, bucket) && In(two, bucket) == src[bucket];
    } else {
      assert In(two, b) == In(one, b);
    }
  }

  lemma NothingOver(before: Store)
    ensures Overlay(map[], before) == before
    ensures forall b :: In(before, b) + map[] == In(before, b)
  {
    forall b ensures In(before, b) + map[] == In(before, b) {
      assert (In(before, b) + map[]).Keys == In(before, b).Keys;
    }
    forall b | b in before ensures Overlay(map[], before)[b] == before[b] {
      assert In(map[], b) == map[];
    }
  }

  lemma StoppedStep(src: Store, before: Store, done: set<string>, bucket: string, now: Store)
    requires bucket in src && bucket !in done
    requires PartialStep(src, Overlay(Only(src, done), before), now, bucket)
    ensures Partial(src, before, now)
  {
    SomeBuckets(src, before, done);
    var mid := Overlay(Only(src, done), before);
    assert In(mid, bucket) == In(before, bucket);
    forall b | b in now ensures PartialBucket(In(src, b), In(before, b), now[b]) {
      if b in mid {
        assert PartialBucket(In(src, b), In(before, b), mid[b]);
      }
    }
  }

  lemma NoneAndAll(src: Store, before: Store)
    ensures Overlay(Only(src, {}), before) == before
    ensures Only(src, src.Keys) == src
  {
    NothingOver(before);
    assert Only(src, {}) == map[];
  }

  /** How many objects each of some buckets holds. */
  function Sizes(src: Store, names: set<string>): map<string, nat> {
    map b | b in src && b in names :: |src[b]|
  }

  lemma NextSize(src: Store, done: set<string>, bucket: string)
    requires bucket in src
    ensures Sizes(src, done)[bucket := |src[bucket]|] == Sizes(src, done + {bucket})
  {
  }

  /** One turn of the bucket loop, with `done` the buckets already copied over `before`. */
  method SyncNext(src: ObjectStore, dst: ObjectStore, ghost before: Store, ghost done: set<string>, bucket: string,
                  faults: set<Call>) returns (count: nat, ok: bool)
    requires src != dst && bucket in src.buckets && bucket !in done
    requires dst.buckets == Overlay(Only(src.buckets, done), before)
    modifies dst
    ensures ok ==> dst.buckets == Overlay(Only(src.buckets, done + {bucket}), before)
    ensures ok ==> count == |src.buckets[bucket]|
    ensures !ok ==> Partial(src.buckets, before, dst.buckets)
    ensures ok <==> BucketCallsOk(bucket, src.buckets[bucket], bucket in before, faults)
  {
    NextBucket(src.buckets, before, done, bucket);
    count, ok := SyncBucket(src, dst, bucket, faults);
    if !ok {
      StoppedStep(src.buckets, before, done, bucket, dst.buckets);
    }
  }

  /** The bucket loop of SyncAllBuckets: buckets arrive in any order. */
  method SyncListed(src: ObjectStore, dst: ObjectStore, ghost before: Store, faults: set<Call>)
    returns (counts: map<string, nat>, ok: bool)
    requires src != dst && dst.buckets == Overlay(Only(src.buckets, {}), before)
    modifies dst
    ensures ok ==> dst.buckets == Overlay(Only(src.buckets, src.buckets.Keys), before)
    ensures ok ==> counts == Sizes(src.buckets, src.buckets.Keys)
    ensures !ok ==> Partial(src.buckets, before, dst.buckets)
    ensures ok <==> BucketsOk(src.buckets, src.buckets.Keys, before, faults)
  {
    counts := map[];
    var todo := src.buckets.Keys;
    ghost var done: set<string> := {};
    while todo != {}
      invariant todo !! done && done + todo == src.buckets.Keys
      invariant dst.buckets == Overlay(Only(src.buckets, done), before)
      invariant counts == Sizes(src.buckets, done)
      invariant BucketsOk(src.buckets, done, before, faults)
      decreases todo
    {
      var bucket :| bucket in todo;
      var count;
      count, ok := SyncNext(src, dst, before, done, bucket, faults);
      if !ok {
        OneNotOk(src.buckets, before, faults, bucket);
        return;
      }
      OneMoreOk(src.buckets, done, before, faults, bucket);
      NextSize(src.buckets, done, bucket);
      counts := counts[bucket := count];
      todo := todo - {bucket};
      done := done + {bucket};
    }
    assert done == src.buckets.Keys;
    ok := true;
  }

  method SyncAllBuckets(src: ObjectStore, dst: ObjectStore, faults: set<Call>)
    returns (counts: map<string, nat>, ok: bool)
    requires src != dst
    modifies dst
    ensures ok ==> dst.buckets == Overlay(src.buckets, old(dst.buckets))
    ensures ok ==> counts == Sizes(src.buckets, src.buckets.Keys)
    ensures !ok ==> Partial(src.buckets, old(dst.buckets), dst.buckets)
    ensures ok <==> {Connect, ListBuckets} !! faults && BucketsOk(src.buckets, src.buckets.Keys, old(dst.buckets), faults)
    ensures faults == {} ==> ok
    // every object of the source is there afterwards, and whatever the source does not have is kept
    ensures ok ==> forall b, k :: b in src.buckets && k in src.buckets[b] ==>
      b in dst.buckets && k in dst.buckets[b] && dst.buckets[b][k] == src.buckets[b][k]
    ensures forall b, k :: b in old(dst.buckets) && k in old(dst.buckets)[b] && (b in src.buckets ==> k !in src.buckets[b]) ==>
      b in dst.buckets && k in dst.buckets[b] && dst.buckets[b][k] == old(dst.buckets)[b][k]
  {
    if Connect in faults || ListBuckets in faults {
      return map[], false;
    }
    NoneAndAll(src.buckets, dst.buckets);
    counts, ok := SyncListed(src, dst, dst.buckets, faults);
  }

  // ---------- running a copy again ----------

  /** Copying over a partial copy gives what copying over the original gives. */
  lemma OverlayAbsorbsPartial(src: Store, before: Store, mid: Store)
    requires Partial(src, before, mid)
    ensures Overlay(src, mid) == Overlay(src, before)
  {
    assert mid.Keys + src.Keys == before.Keys + src.Keys;
    forall b | b in src.Keys + before.Keys ensures In(mid, b) + In(src, b) == In(before, b) + In(src, b) {
      if b in mid {
        BucketAbsorbs(In(src, b), In(before, b), mid[b]);
      }
    }
  }

  lemma BucketAbsorbs(src: Bucket, before: Bucket, mid: Bucket)
    requires PartialBucket(src, before, mid)
    ensures mid + src == before + src
  {
    assert (mid + src).Keys == (before + src).Keys;
  }

  lemma PartialCompose(src: Store, a: Store, b: Store, c: Store)
    requires Partial(src, a, b) && Partial(src, b, c)
    ensures Partial(src, a, c)
  {
    forall n | n in c ensures PartialBucket(In(src, n), In(a, n), c[n]) {
      assert PartialBucket(In(src, n), In(b, n), c[n]);
      if n in b {
        assert PartialBucket(In(src, n), In(a, n), b[n]);
      }
    }
  }

  /** A full copy is one of the partial ones. */
  lemma OverlayIsPartial(src: Store, before: Store)
    ensures Partial(src, before, Overlay(src, before))
  {
  }

  /** What SyncAllBuckets promises of one run. */
  ghost predicate SyncRun(src: Store, before: Store, after: Store, ok: bool) {
    if ok then after == Overlay(src, before) else Partial(src, before, after)
  }

  /** Any number of runs over an unchanged source, each stopped anywhere, followed by one that succeeds,
      leave the destination as one uninterrupted run does. */
  lemma {:induction false} RetriesConverge(src: Store, dst: seq<Store>, ok: seq<bool>)
    requires |dst| == |ok| + 1 && ok != [] && ok[|ok| - 1]
    requires forall i :: 0 <= i < |ok| ==> SyncRun(src, dst[i], dst[i + 1], ok[i])
    ensures dst[|ok|] == Overlay(src, dst[0])
  {
    assert SyncRun(src, dst[0], dst[0 + 1], ok[0]);
    if |ok| > 1 {
      OverlayIsPartial(src, dst[0]);
      OverlayAbsorbsPartial(src, dst[0], dst[1]);
      forall i | 0 <= i < |ok[1..]| ensures SyncRun(src, dst[1..][i], dst[1..][i + 1], ok[1..][i]) {
        assert SyncRun(src, dst[i + 1], dst[i + 1 + 1], ok[i + 1]);
      }
      RetriesConverge(src, dst[1..], ok[1..]);
    }
  }
}
