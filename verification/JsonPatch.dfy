/**
 JSON documents and the "replace" operation of RFC 6902, section 4.3, with pointers as token lists.
 Lists of operations apply in order and as a whole (section 5): one failing operation fails the list.
 */
module JsonPatch {
  import opened Prelude

  datatype Json = Null | Bool(b: bool) | Num(n: int) | Str(s: string) | Arr(items: seq<Json>) | Obj(fields: map<string, Json>)

  datatype Token = Key(key: string) | Index(index: nat)

  type Pointer = seq<Token>

  /** An operation with op "replace", the only one the operator generates. */
  datatype Operation = Replace(path: Pointer, value: Json)

  function Child(doc: Json, t: Token): Option<Json> {
    match (doc, t)
    case (Obj(fields), Key(k)) => if k in fields then Some(fields[k]) else None
    case (Arr(items), Index(i)) => if i < |items| then Some(items[i]) else None
    case _ => None
  }

  function WithChild(doc: Json, t: Token, child: Json): Json
    requires Child(doc, t).Some?
  {
    match (doc, t)
    case (Obj(fields), Key(k)) => Obj(fields[k := child])
    case (Arr(items), Index(i)) => Arr(items[i := child])
  }

  function Lookup(doc: Json, path: Pointer): Option<Json>
    decreases |path|
  {
    if path == [] then Some(doc)
    else
      match Child(doc, path[0])
      case Some(c) => Lookup(c, path[1..])
      case None => None
  }

  /** The target location must exist. */
  function ReplaceAt(doc: Json, path: Pointer, value: Json): Option<Json>
    decreases |path|
  {
    if path == [] then Some(value)
    else
      match Child(doc, path[0])
      case None => None
      case Some(c) =>
        match ReplaceAt(c, path[1..], value)
        case Some(d) => Some(WithChild(doc, path[0], d))
        case None => None
  }

  function Apply(doc: Json, ops: seq<Operation>): Option<Json> {
    if ops == [] then Some(doc)
    else
      match Apply(doc, ops[..|ops| - 1])
      case Some(d) => ReplaceAt(d, ops[|ops| - 1].path, ops[|ops| - 1].value)
      case None => None
  }

  /** Neither pointer leads into the other. */
  predicate Apart(p: Pointer, q: Pointer) {
    !(p <= q) && !(q <= p)
  }

  lemma ChildOfWithChild(doc: Json, t: Token, child: Json, u: Token)
    requires Child(doc, t).Some?
    ensures Child(WithChild(doc, t, child), u) == if u == t then Some(child) else Child(doc, u)
  {
  }

  /** A replacement succeeds exactly on an existing location, puts the value there and leaves every location
      apart from it as it was. */
  lemma {:induction false} ReplaceMeaning(doc: Json, path: Pointer, value: Json, q: Pointer)
    ensures ReplaceAt(doc, path, value).Some? <==> Lookup(doc, path).Some?
    ensures ReplaceAt(doc, path, value).Some? ==> Lookup(ReplaceAt(doc, path, value).value, path) == Some(value)
    ensures ReplaceAt(doc, path, value).Some? && Apart(path, q)
            ==> Lookup(ReplaceAt(doc, path, value).value, q) == Lookup(doc, q)
    decreases |path|
  {
    if path != [] && Child(doc, path[0]).Some? {
      var c := Child(doc, path[0]).value;
      ReplaceMeaning(c, path[1..], value, if q == [] then [] else q[1..]);
      if ReplaceAt(c, path[1..], value).Some? {
        var d := ReplaceAt(c, path[1..], value).value;
        ChildOfWithChild(doc, path[0], d, path[0]);
        if Apart(path, q) {
          ChildOfWithChild(doc, path[0], d, q[0]);
          if q[0] == path[0] {
            ApartTails(path, q);
          }
        }
      }
    }
  }

  lemma ApartTails(p: Pointer, q: Pointer)
    requires Apart(p, q) && p[0] == q[0]
    ensures Apart(p[1..], q[1..])
  {
    assert p == [p[0]] + p[1..] && q == [q[0]] + q[1..];
  }

  /** The number of elements of the array at a location, or 0. */
  function Length(doc: Json, path: Pointer): nat {
    match Lookup(doc, path)
    case Some(Arr(items)) => |items|
    case _ => 0
  }

  /** Replacing something inside an array does not change its length. */
  lemma {:induction false} ReplaceKeepsLength(doc: Json, path: Pointer, value: Json, q: Pointer)
    requires q < path && ReplaceAt(doc, path, value).Some?
    ensures Length(ReplaceAt(doc, path, value).value, q) == Length(doc, q)
    decreases |path|
  {
    if q != [] {
      var c := Child(doc, path[0]).value;
      ReplaceKeepsLength(c, path[1..], value, q[1..]);
      ChildOfWithChild(doc, path[0], ReplaceAt(c, path[1..], value).value, path[0]);
    }
  }

  predicate PairwiseApart(paths: seq<Pointer>) {
    forall i, j :: 0 <= i < j < |paths| ==> Apart(paths[i], paths[j])
  }

  function Paths(ops: seq<Operation>): seq<Pointer> {
    seq(|ops|, i requires 0 <= i < |ops| => ops[i].path)
  }

  /** A list over locations apart from each other succeeds exactly when they all exist, and then sets each
      one to its value and nothing else. */
  lemma {:induction false} ApplyMeaning(doc: Json, ops: seq<Operation>)
    requires PairwiseApart(Paths(ops))
    ensures Apply(doc, ops).Some? <==> forall o :: o in ops ==> Lookup(doc, o.path).Some?
    ensures Apply(doc, ops).Some? ==> forall o :: o in ops ==> Lookup(Apply(doc, ops).value, o.path) == Some(o.value)
    ensures Apply(doc, ops).Some? ==>
              forall q :: (forall o :: o in ops ==> Apart(o.path, q)) ==> Lookup(Apply(doc, ops).value, q) == Lookup(doc, q)
  {
    if ops != [] {
      var front, last := ops[..|ops| - 1], ops[|ops| - 1];
      assert ops == front + [last];
      assert PairwiseApart(Paths(front)) by {
        forall i, j | 0 <= i < j < |front| ensures Apart(Paths(front)[i], Paths(front)[j]) {
          assert Apart(Paths(ops)[i], Paths(ops)[j]);
        }
      }
      ApplyMeaning(doc, front);
      forall o | o in front ensures Apart(o.path, last.path) {
        var i :| 0 <= i < |front| && front[i] == o;
        assert Apart(Paths(ops)[i], Paths(ops)[|front|]);
      }
      if Apply(doc, front).Some? {
        ApplyLast(Apply(doc, front).value, front, last);
      }
    }
  }

  lemma ApplyLast(mid: Json, front: seq<Operation>, last: Operation)
    requires forall o :: o in front ==> Apart(o.path, last.path)
    ensures ReplaceAt(mid, last.path, last.value).Some? <==> Lookup(mid, last.path).Some?
    ensures ReplaceAt(mid, last.path, last.value).Some? ==>
              var after := ReplaceAt(mid, last.path, last.value).value;
              && Lookup(after, last.path) == Some(last.value)
              && (forall o :: o in front ==> Lookup(after, o.path) == Lookup(mid, o.path))
              && (forall q :: Apart(last.path, q) ==> Lookup(after, q) == Lookup(mid, q))
  {
    ReplaceMeaning(mid, last.path, last.value, []);
    forall q | Apart(last.path, q) && ReplaceAt(mid, last.path, last.value).Some?
      ensures Lookup(ReplaceAt(mid, last.path, last.value).value, q) == Lookup(mid, q)
    {
      ReplaceMeaning(mid, last.path, last.value, q);
    }
    forall o | o in front ensures Apart(last.path, o.path) {}
  }

  lemma {:induction false} ApplyKeepsLength(doc: Json, ops: seq<Operation>, q: Pointer)
    requires Apply(doc, ops).Some?
    requires forall o :: o in ops ==> q < o.path || Apart(o.path, q)
    ensures Length(Apply(doc, ops).value, q) == Length(doc, q)
  {
    if ops != [] {
      var front, last := ops[..|ops| - 1], ops[|ops| - 1];
      assert last in ops;
      ApplyKeepsLength(doc, front, q);
      var mid := Apply(doc, front).value;
      if q < last.path {
        ReplaceKeepsLength(mid, last.path, last.value, q);
      } else {
        ReplaceMeaning(mid, last.path, last.value, q);
      }
    }
  }
}
