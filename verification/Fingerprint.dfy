/**
 The string that records which node properties the load balancer was last configured for
 (pkg/cluster/internallb.go): one line per node, sorted and joined by commas.
 */
module Fingerprint {
  import opened Nodes

  /** What the load balancer depends on. */
  datatype Props = Props(name: string, master: bool, ip: string)

  function PropsOf(nodes: seq<Node>): seq<Props> {
    seq(|nodes|, i requires 0 <= i < |nodes| => Props(nodes[i].name, IsMaster(nodes[i]), InternalIP(nodes[i])))
  }

  function Line(p: Props): string {
    p.name + " " + (if p.master then "true" else "false") + " " + p.ip
  }

  function Lines(ps: seq<Props>): seq<string> {
    seq(|ps|, i requires 0 <= i < |ps| => Line(ps[i]))
  }

  predicate Clean(p: Props) {
    ' ' !in p.name && ',' !in p.name && ' ' !in p.ip && ',' !in p.ip
  }

  predicate AllClean(ps: seq<Props>) {
    forall p :: p in ps ==> Clean(p)
  }

  // ---------- sorting ----------

  predicate AtMost(a: string, b: string) {
    if a == "" then true
    else if b == "" then false
    else if a[0] == b[0] then AtMost(a[1..], b[1..])
    else a[0] < b[0]
  }

  function Insert(x: string, sorted: seq<string>): seq<string> {
    if sorted == [] || AtMost(x, sorted[0]) then [x] + sorted
    else [sorted[0]] + Insert(x, sorted[1..])
  }

  function Sort(xs: seq<string>): seq<string> {
    if xs == [] then [] else Insert(xs[0], Sort(xs[1..]))
  }

  predicate Sorted(xs: seq<string>) {
    forall i, j :: 0 <= i < j < |xs| ==> AtMost(xs[i], xs[j])
  }

  lemma {:induction false} AtMostTotal(a: string, b: string)
    ensures AtMost(a, b) || AtMost(b, a)
    ensures AtMost(a, b) && AtMost(b, a) ==> a == b
  {
    if a != "" && b != "" && a[0] == b[0] {
      AtMostTotal(a[1..], b[1..]);
      assert a == [a[0]] + a[1..] && b == [b[0]] + b[1..];
    }
  }

  lemma {:induction false} AtMostTransitive(a: string, b: string, c: string)
    requires AtMost(a, b) && AtMost(b, c)
    ensures AtMost(a, c)
  {
    if a != "" && a[0] == b[0] && b[0] == c[0] {
      AtMostTransitive(a[1..], b[1..], c[1..]);
    }
  }

  lemma {:induction false} InsertSorts(x: string, xs: seq<string>)
    requires Sorted(xs)
    ensures Sorted(Insert(x, xs))
    ensures multiset(Insert(x, xs)) == multiset(xs) + multiset{x}
  {
    if xs != [] {
      assert xs == [xs[0]] + xs[1..];
      AtMostTotal(x, xs[0]);
      if AtMost(x, xs[0]) {
        forall j | 0 <= j < |xs| ensures AtMost(x, xs[j]) {
          if j > 0 {
            AtMostTransitive(x, xs[0], xs[j]);
          }
        }
      } else {
        InsertSorts(x, xs[1..]);
        FirstStaysFirst(x, xs);
      }
    }
  }

  lemma FirstStaysFirst(x: string, xs: seq<string>)
    requires Sorted(xs) && xs != [] && AtMost(xs[0], x)
    requires var rest := Insert(x, xs[1..]); Sorted(rest) && multiset(rest) == multiset(xs[1..]) + multiset{x}
    ensures Sorted([xs[0]] + Insert(x, xs[1..]))
  {
    var rest := Insert(x, xs[1..]);
    forall y | y in rest ensures AtMost(xs[0], y) {
      assert y in multiset(rest);
      if y != x {
        assert y in xs[1..];
      }
    }
  }

  lemma {:induction false} SortSorts(xs: seq<string>)
    ensures Sorted(Sort(xs))
    ensures multiset(Sort(xs)) == multiset(xs)
  {
    if xs != [] {
      SortSorts(xs[1..]);
      InsertSorts(xs[0], Sort(xs[1..]));
      assert xs == [xs[0]] + xs[1..];
    }
  }

  lemma SameLeast(a: seq<string>, b: seq<string>)
    requires Sorted(a) && Sorted(b) && multiset(a) == multiset(b) && a != []
    ensures b != [] && a[0] == b[0]
  {
    assert a[0] in multiset(b);
    assert b[0] in multiset(a);
    var i :| 0 <= i < |b| && b[i] == a[0];
    var j :| 0 <= j < |a| && a[j] == b[0];
    AtMostTotal(a[0], b[0]);
  }

  /** Sorted sequences with the same elements are the same sequence. */
  lemma {:induction false} SortedUnique(a: seq<string>, b: seq<string>)
    requires Sorted(a) && Sorted(b) && multiset(a) == multiset(b)
    ensures a == b
  {
    if a != [] {
      SameLeast(a, b);
      assert a == [a[0]] + a[1..] && b == [b[0]] + b[1..];
      assert multiset(a[1..]) == multiset(a) - multiset{a[0]};
      assert multiset(b[1..]) == multiset(b) - multiset{b[0]};
      SortedUnique(a[1..], b[1..]);
    } else if b != [] {
      SameLeast(b, a);
    }
  }

  lemma SortCanonical(a: seq<string>, b: seq<string>)
    ensures Sort(a) == Sort(b) <==> multiset(a) == multiset(b)
  {
    SortSorts(a);
    SortSorts(b);
    if multiset(a) == multiset(b) {
      SortedUnique(Sort(a), Sort(b));
    }
  }

  // ---------- joining ----------

  function Join(xs: seq<string>): string {
    if xs == [] then "" else if |xs| == 1 then xs[0] else xs[0] + "," + Join(xs[1..])
  }

  predicate NoComma(s: string) {
    forall i :: 0 <= i < |s| ==> s[i] != ','
  }

  predicate Joinable(xs: seq<string>) {
    forall i :: 0 <= i < |xs| ==> xs[i] != "" && NoComma(xs[i])
  }

  /** `x` is what comes before the first comma of `s`. */
  predicate Head(x: string, s: string) {
    x <= s && NoComma(x) && (|x| < |s| ==> s[|x|] == ',')
  }

  lemma CommaAfterHead(x: string, y: string, s: string)
    requires Head(x, s) && y <= s
    ensures |x| < |y| ==> y[|x|] == ','
  {
  }

  lemma HeadUnique(x: string, y: string, s: string)
    requires Head(x, s) && Head(y, s)
    ensures x == y
  {
    CommaAfterHead(x, y, s);
    CommaAfterHead(y, x, s);
    assert x == s[..|x|] && y == s[..|y|];
  }

  lemma JoinHead(xs: seq<string>)
    requires Joinable(xs) && xs != []
    ensures Head(xs[0], Join(xs)) && Join(xs) != ""
    ensures |xs| == 1 <==> Join(xs) == xs[0]
    ensures |xs| > 1 ==> Join(xs)[|xs[0]| + 1..] == Join(xs[1..])
  {
  }

  lemma {:induction false} JoinInjective(a: seq<string>, b: seq<string>)
    requires Joinable(a) && Joinable(b) && Join(a) == Join(b)
    ensures a == b
  {
    if a != [] {
      JoinHead(a);
    }
    if b != [] {
      JoinHead(b);
    }
    if a != [] && b != [] {
      HeadUnique(a[0], b[0], Join(a));
      assert a == [a[0]] + a[1..] && b == [b[0]] + b[1..];
      if |a| > 1 {
        JoinInjective(a[1..], b[1..]);
      }
    }
  }

  // ---------- lines ----------

  lemma LineInjective(p: Props, q: Props)
    requires Clean(p) && Clean(q) && Line(p) == Line(q)
    ensures p == q
  {
    var s := Line(p);
    assert s[|p.name|] == ' ' && s[|q.name|] == ' ';
    assert forall i :: 0 <= i < |p.name| ==> s[i] == p.name[i];
    assert forall i :: 0 <= i < |q.name| ==> s[i] == q.name[i];
    assert |p.name| == |q.name|;
    assert p.name == s[..|p.name|] == q.name;
    var n := |p.name| + 1;
    assert s[n] == if p.master then 't' else 'f';
    assert s[n] == if q.master then 't' else 'f';
    var m := n + if p.master then 5 else 6;
    assert p.ip == s[m..] == q.ip;
  }

  lemma LineNoComma(p: Props)
    requires Clean(p)
    ensures NoComma(Line(p)) && Line(p) != ""
  {
    var token := if p.master then "true" else "false";
    forall i | 0 <= i < |Line(p)| ensures Line(p)[i] != ',' {
      if i < |p.name| {
        assert Line(p)[i] == p.name[i];
      } else if i >= |p.name| + |token| + 2 {
        assert Line(p)[i] == p.ip[i - |p.name| - |token| - 2];
      }
    }
  }

  lemma LinesJoinable(ps: seq<Props>)
    requires AllClean(ps)
    ensures Joinable(Sort(Lines(ps)))
  {
    var sorted := Sort(Lines(ps));
    SortSorts(Lines(ps));
    forall k | 0 <= k < |sorted| ensures sorted[k] != "" && NoComma(sorted[k]) {
      assert sorted[k] in multiset(sorted);
      assert sorted[k] in Lines(ps);
      var i :| 0 <= i < |ps| && sorted[k] == Line(ps[i]);
      LineNoComma(ps[i]);
    }
  }

  lemma {:induction false} LineCounts(ps: seq<Props>, p: Props)
    requires AllClean(ps) && Clean(p)
    ensures multiset(Lines(ps))[Line(p)] == multiset(ps)[p]
  {
    if ps != [] {
      var rest := ps[1..];
      LineCounts(rest, p);
      assert ps == [ps[0]] + rest && Lines(ps) == [Line(ps[0])] + Lines(rest);
      if Line(ps[0]) == Line(p) {
        LineInjective(ps[0], p);
      }
    }
  }

  lemma LinesKeepMultisets(a: seq<Props>, b: seq<Props>)
    requires AllClean(a) && AllClean(b)
    ensures multiset(Lines(a)) == multiset(Lines(b)) <==> multiset(a) == multiset(b)
  {
    if multiset(Lines(a)) == multiset(Lines(b)) {
      forall p ensures multiset(a)[p] == multiset(b)[p] {
        if p in a || p in b {
          LineCounts(a, p);
          LineCounts(b, p);
        }
      }
    }
    if multiset(a) == multiset(b) {
      forall x ensures multiset(Lines(a))[x] == multiset(Lines(b))[x] {
        if x in Lines(a) {
          var i :| 0 <= i < |a| && x == Line(a[i]);
          LineCounts(a, a[i]);
          LineCounts(b, a[i]);
        } else if x in Lines(b) {
          var i :| 0 <= i < |b| && x == Line(b[i]);
          LineCounts(a, b[i]);
          LineCounts(b, b[i]);
        }
      }
    }
  }

  // ---------- the fingerprint ----------

  function FingerprintOf(nodes: seq<Node>): string {
    Join(Sort(Lines(PropsOf(nodes))))
  }

  predicate CleanNodes(nodes: seq<Node>) {
    AllClean(PropsOf(nodes))
  }

  /** Two node lists have the same fingerprint exactly when their properties are the same up to order. */
  lemma FingerprintCanonical(a: seq<Node>, b: seq<Node>)
    requires CleanNodes(a) && CleanNodes(b)
    ensures FingerprintOf(a) == FingerprintOf(b) <==> multiset(PropsOf(a)) == multiset(PropsOf(b))
  {
    var la, lb := Lines(PropsOf(a)), Lines(PropsOf(b));
    LinesJoinable(PropsOf(a));
    LinesJoinable(PropsOf(b));
    if Join(Sort(la)) == Join(Sort(lb)) {
      JoinInjective(Sort(la), Sort(lb));
    }
    SortCanonical(la, lb);
    LinesKeepMultisets(PropsOf(a), PropsOf(b));
  }

  method ComputeFingerprint(nodes: seq<Node>) returns (fingerprint: string)
    ensures fingerprint == FingerprintOf(nodes)
  {
    var nodeProps: seq<string> := [];
    for i := 0 to |nodes|
      invariant nodeProps == Lines(PropsOf(nodes))[..i]
    {
      nodeProps := nodeProps + [Line(Props(nodes[i].name, IsMaster(nodes[i]), InternalIP(nodes[i])))];
    }
    assert nodeProps == Lines(PropsOf(nodes));
    return Join(Sort(nodeProps));
  }
}
