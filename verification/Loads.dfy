/** Totals over finite maps from host to pod count, and the sum of squares that measures imbalance. */
module Loads {

  type Load = map<string, nat>

  ghost function Total(l: Load, hosts: set<string>): nat
    requires hosts <= l.Keys
  {
    if hosts == {} then 0
    else
      var h :| h in hosts;
      l[h] + Total(l, hosts - {h})
  }

  /** Any host may be split off first. */
  lemma {:induction false} TotalSplit(l: Load, hosts: set<string>, x: string)
    requires x in hosts && hosts <= l.Keys
    ensures Total(l, hosts) == l[x] + Total(l, hosts - {x})
    decreases hosts
  {
    var h :| h in hosts && Total(l, hosts) == l[h] + Total(l, hosts - {h});
    if h != x {
      TotalSplit(l, hosts - {h}, x);
      TotalSplit(l, hosts - {x}, h);
      assert hosts - {h} - {x} == hosts - {x} - {h};
    }
  }

  lemma {:induction false} TotalAgree(l: Load, m: Load, hosts: set<string>)
    requires hosts <= l.Keys && hosts <= m.Keys
    requires forall h :: h in hosts ==> l[h] == m[h]
    ensures Total(l, hosts) == Total(m, hosts)
    decreases hosts
  {
    if hosts != {} {
      var h :| h in hosts;
      TotalAgree(l, m, hosts - {h});
      TotalSplit(l, hosts, h);
      TotalSplit(m, hosts, h);
    }
  }

  /** Changing one entry changes the total by the same amount. */
  lemma TotalChange(l: Load, m: Load, hosts: set<string>, x: string)
    requires x in hosts && hosts <= l.Keys && hosts <= m.Keys
    requires forall h :: h in hosts && h != x ==> l[h] == m[h]
    ensures Total(m, hosts) + l[x] == Total(l, hosts) + m[x]
  {
    TotalSplit(l, hosts, x);
    TotalSplit(m, hosts, x);
    TotalAgree(l, m, hosts - {x});
  }

  lemma OneMore(c: nat, k: nat)
    ensures c * (k + 1) == c * k + c
  {
  }

  lemma {:induction false} TotalAtMost(l: Load, hosts: set<string>, c: nat)
    requires hosts <= l.Keys
    requires forall h :: h in hosts ==> l[h] <= c
    ensures Total(l, hosts) <= c * |hosts|
    decreases hosts
  {
    if hosts != {} {
      var h :| h in hosts;
      TotalSplit(l, hosts, h);
      TotalAtMost(l, hosts - {h}, c);
      assert |hosts| == |hosts - {h}| + 1;
      OneMore(c, |hosts - {h}|);
    }
  }

  lemma {:induction false} TotalAtLeast(l: Load, hosts: set<string>, c: nat)
    requires hosts <= l.Keys
    requires forall h :: h in hosts ==> l[h] >= c
    ensures Total(l, hosts) >= c * |hosts|
    decreases hosts
  {
    if hosts != {} {
      var h :| h in hosts;
      TotalSplit(l, hosts, h);
      TotalAtLeast(l, hosts - {h}, c);
      assert |hosts| == |hosts - {h}| + 1;
      OneMore(c, |hosts - {h}|);
    }
  }

  lemma SquareOfSum(a: nat, b: nat)
    ensures (a + b) * (a + b) >= a * a + b * b
  {
    assert (a + b) * (a + b) == a * a + 2 * (a * b) + b * b;
  }

  ghost function Squares(l: Load): Load {
    map h | h in l :: l[h] * l[h]
  }

  ghost function SumOfSquares(l: Load): nat {
    Total(Squares(l), l.Keys)
  }

  lemma {:induction false} SquaresAtMostSquareOfTotal(l: Load, hosts: set<string>)
    requires hosts <= l.Keys
    ensures Total(Squares(l), hosts) <= Total(l, hosts) * Total(l, hosts)
    decreases hosts
  {
    if hosts != {} {
      var h :| h in hosts;
      TotalSplit(l, hosts, h);
      TotalSplit(Squares(l), hosts, h);
      SquaresAtMostSquareOfTotal(l, hosts - {h});
      SquareOfSum(l[h], Total(l, hosts - {h}));
    }
  }

  /** Moving one unit from a to b changes the sum of squares by 2 * (l[b] - l[a] + 1). */
  lemma MoveChangesSquares(l: Load, m: Load, a: string, b: string)
    requires m.Keys == l.Keys && a in l && b in l && a != b && l[a] > 0
    requires forall h :: h in l ==> m[h] == (if h == a then l[h] - 1 else if h == b then l[h] + 1 else l[h])
    ensures SumOfSquares(m) + 2 * l[a] == SumOfSquares(l) + 2 * l[b] + 2
  {
    var x, y := l[a], l[b];
    var mid := l[a := x - 1];
    var sl, sm, sn := Squares(l), Squares(mid), Squares(m);
    assert sl[a] == x * x && sm[a] == (x - 1) * (x - 1);
    assert sm[b] == y * y && sn[b] == (y + 1) * (y + 1);
    forall h | h in l && h != a ensures sl[h] == sm[h] {}
    forall h | h in l && h != b ensures sm[h] == sn[h] {}
    TotalChange(sl, sm, l.Keys, a);
    TotalChange(sm, sn, l.Keys, b);
    SquareStep(x - 1);
    SquareStep(y);
    assert mid.Keys == l.Keys;
  }

  lemma SquareStep(n: int)
    ensures (n + 1) * (n + 1) == n * n + 2 * n + 1
  {
  }
}
