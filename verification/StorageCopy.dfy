/**
 What the calls of a copy make of its destination, in any order that makes a bucket before its objects: all of
 them the overlay, and some of them any partial overlay.
 */
module StorageCopy {
  import opened ObjectSync
  import opened StorageMachine

  /** Buckets come before their objects. */
  predicate Closed(src: Store, items: set<Item>) {
    items <= Listing(src) && forall i :: i in items && i.OneObject? ==> NewBucket(i.bucket) in items
  }

  function Taken(src: Bucket, b: string, items: set<Item>): Bucket {
    map k | k in src && OneObject(b, k) in items :: src[k]
  }

  function BucketsOf(items: set<Item>): set<string> {
    set i | i in items :: i.bucket
  }

  /** The destination after these items. */
  function WithItems(src: Store, dst: Store, items: set<Item>): Store {
    map b | b in dst.Keys + BucketsOf(items) :: In(dst, b) + Taken(In(src, b), b, items)
  }

  lemma WithoutItems(src: Store, dst: Store)
    ensures WithItems(src, dst, {}) == dst
  {
    forall b | b in dst ensures WithItems(src, dst, {})[b] == dst[b] {
      assert Taken(In(src, b), b, {}) == map[];
    }
  }

  lemma BucketTaken(src: Bucket, b: string, items: set<Item>, bucket: string)
    ensures Taken(src, b, items + {NewBucket(bucket)}) == Taken(src, b, items)
  {
  }

  lemma ObjectTaken(src: Bucket, b: string, items: set<Item>, bucket: string, key: string)
    ensures Taken(src, b, items + {OneObject(bucket, key)})
         == if b == bucket && key in src then Taken(src, b, items)[key := src[key]] else Taken(src, b, items)
  {
  }

  lemma OneMoreKey(x: Bucket, y: Bucket, key: string, o: Object)
    ensures x + y[key := o] == (x + y)[key := o]
  {
  }

  lemma NothingTaken(src: Bucket, b: string, items: set<Item>)
    requires b !in BucketsOf(items)
    ensures Taken(src, b, items) == map[]
  {
    assert forall i :: i in items ==> i.bucket in BucketsOf(items);
  }

  lemma MoreBuckets(items: set<Item>, item: Item)
    ensures BucketsOf(items + {item}) == BucketsOf(items) + {item.bucket}
  {
  }

  lemma SameStore(x: Store, y: Store)
    requires forall b :: (b in x <==> b in y) && (b in x ==> x[b] == y[b])
    ensures x == y
  {
  }

  lemma BucketNextAt(src: Store, dst: Store, items: set<Item>, bucket: string, b: string)
    ensures var mid, next := WithItems(src, dst, items), WithItems(src, dst, items + {NewBucket(bucket)});
            && (b in next <==> b in mid || b == bucket)
            && (b in next ==> next[b] == if b in mid then mid[b] else map[])
  {
    MoreBuckets(items, NewBucket(bucket));
    BucketTaken(In(src, b), b, items, bucket);
    if b !in WithItems(src, dst, items) {
      NothingTaken(In(src, b), b, items);
    }
  }

  lemma BucketNext(src: Store, dst: Store, items: set<Item>, bucket: string)
    ensures CopyItem(src, WithItems(src, dst, items), NewBucket(bucket)) == WithItems(src, dst, items + {NewBucket(bucket)})
  {
    var step, next := CopyItem(src, WithItems(src, dst, items), NewBucket(bucket)), WithItems(src, dst, items + {NewBucket(bucket)});
    forall b ensures (b in step <==> b in next) && (b in step ==> step[b] == next[b]) {
      BucketNextAt(src, dst, items, bucket, b);
    }
    SameStore(step, next);
  }

  lemma ObjectNext(src: Store, dst: Store, items: set<Item>, bucket: string, key: string)
    requires bucket in src && key in src[bucket] && bucket in WithItems(src, dst, items)
    ensures CopyItem(src, WithItems(src, dst, items), OneObject(bucket, key)) == WithItems(src, dst, items + {OneObject(bucket, key)})
  {
    var step := CopyItem(src, WithItems(src, dst, items), OneObject(bucket, key));
    var next := WithItems(src, dst, items + {OneObject(bucket, key)});
    forall b ensures (b in step <==> b in next) && (b in step ==> step[b] == next[b]) {
      ObjectNextAt(src, dst, items, bucket, key, b);
    }
    SameStore(step, next);
  }

  lemma ObjectNextAt(src: Store, dst: Store, items: set<Item>, bucket: string, key: string, b: string)
    requires bucket in src && key in src[bucket] && bucket in WithItems(src, dst, items)
    ensures var mid, next := WithItems(src, dst, items), WithItems(src, dst, items + {OneObject(bucket, key)});
            && (b in next <==> b in mid)
            && (b in next ==> next[b] == if b == bucket then mid[b][key := src[bucket][key]] else mid[b])
  {
    MoreBuckets(items, OneObject(bucket, key));
    ObjectTaken(In(src, b), b, items, bucket, key);
    if b == bucket {
      OneMoreKey(In(dst, b), Taken(In(src, b), b, items), key, src[bucket][key]);
    }
  }

  /** Each call does what it is for. */
  lemma ItemNext(src: Store, dst: Store, items: set<Item>, item: Item)
    requires Closed(src, items + {item}) && Closed(src, items)
    ensures CanCopy(src, WithItems(src, dst, items), item)
    ensures CopyItem(src, WithItems(src, dst, items), item) == WithItems(src, dst, items + {item})
  {
    assert item in Listing(src);
    match item
    case NewBucket(bucket) => BucketNext(src, dst, items, bucket);
    case OneObject(bucket, key) =>
      assert NewBucket(bucket) in items + {item};
      assert NewBucket(bucket).bucket in BucketsOf(items);
      ObjectNext(src, dst, items, bucket, key);
  }

  lemma AllItems(src: Store, dst: Store)
    ensures Closed(src, Listing(src)) && WithItems(src, dst, Listing(src)) == Overlay(src, dst)
  {
    forall b ensures b in BucketsOf(Listing(src)) <==> b in src {
      if b in src {
        assert NewBucket(b) in Listing(src) && NewBucket(b).bucket == b;
      }
    }
    forall b ensures Taken(In(src, b), b, Listing(src)) == In(src, b) {
    }
  }

  /** The items that a stopped copy shows as done. */
  function ItemsShown(src: Store, mid: Store): set<Item> {
    set i | i in Listing(src) && i.bucket in mid
            && (i.OneObject? ==> i.key in mid[i.bucket] && mid[i.bucket][i.key] == src[i.bucket][i.key])
  }

  lemma ShownIff(src: Store, mid: Store, b: string, k: string)
    requires b in mid
    ensures OneObject(b, k) in ItemsShown(src, mid) <==> k in In(src, b) && k in mid[b] && mid[b][k] == In(src, b)[k]
  {
    assert OneObject(b, k) in Listing(src) <==> b in src && k in src[b];
  }

  lemma ShownBucketIff(src: Store, mid: Store, b: string)
    ensures b in BucketsOf(ItemsShown(src, mid)) <==> b in src && b in mid
  {
    if b in src && b in mid {
      assert NewBucket(b) in ItemsShown(src, mid) && NewBucket(b).bucket == b;
    }
  }

  lemma PartItems(src: Store, dst: Store, mid: Store)
    requires Partial(src, dst, mid)
    ensures Closed(src, ItemsShown(src, mid)) && WithItems(src, dst, ItemsShown(src, mid)) == mid
  {
    ShownClosed(src, mid);
    var all := WithItems(src, dst, ItemsShown(src, mid));
    forall b ensures (b in all <==> b in mid) && (b in all ==> all[b] == mid[b]) {
      ShownBucketIff(src, mid, b);
      if b in mid {
        PartBucket(src, dst, mid, b);
      }
    }
    SameStore(all, mid);
  }

  lemma ShownClosed(src: Store, mid: Store)
    ensures Closed(src, ItemsShown(src, mid))
  {
    forall i | i in ItemsShown(src, mid) && i.OneObject? ensures NewBucket(i.bucket) in ItemsShown(src, mid) {
      assert NewBucket(i.bucket) in Listing(src);
    }
  }

  lemma PartBucket(src: Store, dst: Store, mid: Store, b: string)
    requires Partial(src, dst, mid) && b in mid
    ensures In(dst, b) + Taken(In(src, b), b, ItemsShown(src, mid)) == mid[b]
  {
    assert PartialBucket(In(src, b), In(dst, b), mid[b]);
    TakenShown(src, mid, b);
    PartOfBucket(In(src, b), In(dst, b), mid[b]);
  }

  /** The objects of the source that show in the destination. */
  function Common(src: Bucket, mid: Bucket): Bucket {
    map k | k in src && k in mid && mid[k] == src[k] :: src[k]
  }

  lemma TakenShown(src: Store, mid: Store, b: string)
    requires b in mid
    ensures Taken(In(src, b), b, ItemsShown(src, mid)) == Common(In(src, b), mid[b])
  {
    forall k ensures k in Taken(In(src, b), b, ItemsShown(src, mid)) <==> k in Common(In(src, b), mid[b]) {
      ShownIff(src, mid, b, k);
    }
  }

  lemma PartOfBucket(src: Bucket, before: Bucket, mid: Bucket)
    requires PartialBucket(src, before, mid)
    ensures before + Common(src, mid) == mid
  {
  }

  /** An item that may be done last. */
  lemma SomeLast(src: Store, items: set<Item>) returns (item: Item)
    requires Closed(src, items) && items != {}
    ensures item in items && Closed(src, items - {item})
  {
    if i :| i in items && i.OneObject? {
      item := i;
    } else {
      item :| item in items;
    }
  }
}
