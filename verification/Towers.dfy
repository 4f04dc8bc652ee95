/** Which node a tower's link leads to, as a function of the heights along level 0. */
module Towers {
  /** The first position after q whose tower is higher than lev; |hs| stands for NULL. */
  function Succ(hs: seq<nat>, q: nat, lev: nat): (r: nat)
    requires q < |hs|
    ensures q < r <= |hs|
    ensures r < |hs| ==> hs[r] > lev
    ensures forall j :: q < j < r ==> hs[j] <= lev
    decreases |hs| - q
  {
    if q + 1 == |hs| || hs[q + 1] > lev then q + 1 else Succ(hs, q + 1, lev)
  }

  /** The last position before b whose tower is higher than lev. */
  function Pred(hs: seq<nat>, b: nat, lev: nat): (r: nat)
    requires 0 < b <= |hs| && hs[0] > lev
    ensures r < b && hs[r] > lev
    ensures forall j :: r < j < b ==> hs[j] <= lev
  {
    if hs[b - 1] > lev then b - 1 else Pred(hs, b - 1, lev)
  }

  lemma {:induction false} SuccIs(hs: seq<nat>, q: nat, lev: nat, r: nat)
    requires q < r <= |hs| && (r < |hs| ==> hs[r] > lev) && forall j :: q < j < r ==> hs[j] <= lev
    ensures Succ(hs, q, lev) == r
  {
  }

  lemma {:induction false} PredIs(hs: seq<nat>, b: nat, lev: nat, r: nat)
    requires 0 < b <= |hs| && hs[0] > lev && r < b && hs[r] > lev && forall j :: r < j < b ==> hs[j] <= lev
    ensures Pred(hs, b, lev) == r
  {
  }

  function Spliced(hs: seq<nat>, b: nat, h: nat): seq<nat>
    requires b <= |hs|
  {
    hs[..b] + [h] + hs[b..]
  }

  /** Links before the new tower: those that led past b now lead to it, up to its height. */
  lemma {:induction false} SuccBeforeSplice(hs: seq<nat>, b: nat, h: nat, q: nat, lev: nat)
    requires 0 < b <= |hs| && q < b
    ensures var r := Succ(hs, q, lev);
            && Succ(Spliced(hs, b, h), q, lev) == (if r < b then r else if lev < h then b else r + 1)
            && (b <= r ==> Succ(Spliced(hs, b, h), b, lev) == r + 1)
  {
    var hs' := Spliced(hs, b, h);
    var r := Succ(hs, q, lev);
    assert forall j :: 0 <= j < b ==> hs'[j] == hs[j];
    assert forall j :: b < j <= |hs| ==> hs'[j] == hs[j - 1];
    SuccIs(hs', q, lev, if r < b then r else if lev < h then b else r + 1);
    if b <= r {
      SuccIs(hs', b, lev, r + 1);
    }
  }

  lemma {:induction false} SuccAfterSplice(hs: seq<nat>, b: nat, h: nat, q: nat, lev: nat)
    requires 0 < b <= q < |hs|
    ensures Succ(Spliced(hs, b, h), q + 1, lev) == Succ(hs, q, lev) + 1
  {
    var hs' := Spliced(hs, b, h);
    assert forall j :: b < j <= |hs| ==> hs'[j] == hs[j - 1];
    SuccIs(hs', q + 1, lev, Succ(hs, q, lev) + 1);
  }

  /** A tower of height h put at b: links before it that led past it now lead to it, up to its
      height; its own links lead where the last of them led; later links are as before. */
  lemma {:induction false} SuccSpliced(hs: seq<nat>, b: nat, h: nat, q: nat, lev: nat)
    requires 0 < b <= |hs| && q < |hs|
    ensures var hs' := Spliced(hs, b, h);
            && (q < b ==> Succ(hs', q, lev) == if Succ(hs, q, lev) < b then Succ(hs, q, lev)
                                               else if lev < h then b else Succ(hs, q, lev) + 1)
            && (q >= b ==> Succ(hs', q + 1, lev) == Succ(hs, q, lev) + 1)
            && (q < b <= Succ(hs, q, lev) ==> Succ(hs', b, lev) == Succ(hs, q, lev) + 1)
  {
    if q < b {
      SuccBeforeSplice(hs, b, h, q, lev);
    } else {
      SuccAfterSplice(hs, b, h, q, lev);
    }
  }

  /** Before b, only the last tower higher than lev has its link lead past b. */
  lemma {:induction false} OnlyPredPasses(hs: seq<nat>, b: nat, q: nat, lev: nat)
    requires 0 < b <= |hs| && hs[0] > lev && q < b && hs[q] > lev
    ensures Succ(hs, q, lev) >= b <==> q == Pred(hs, b, lev)
  {
    var p := Pred(hs, b, lev);
    assert q < p ==> Succ(hs, q, lev) <= p;
  }

  function Without<T>(s: seq<T>, b: nat): seq<T>
    requires b < |s|
  {
    s[..b] + s[b + 1..]
  }

  lemma {:induction false} WithoutThenSpliced(hs: seq<nat>, b: nat)
    requires b < |hs|
    ensures Spliced(Without(hs, b), b, hs[b]) == hs
  {
  }

  lemma {:induction false} PredWithout(hs: seq<nat>, b: nat, lev: nat)
    requires 0 < b < |hs| && hs[0] > lev
    ensures Without(hs, b)[0] == hs[0] && Pred(Without(hs, b), b, lev) == Pred(hs, b, lev)
  {
    PredIs(Without(hs, b), b, lev, Pred(hs, b, lev));
  }

  /** The positions met by following links at one level. */
  ghost function Chain(hs: seq<nat>, q: nat, lev: nat): seq<nat>
    requires q < |hs|
    decreases |hs| - q
  {
    var r := Succ(hs, q, lev);
    if r == |hs| then [] else [r] + Chain(hs, r, lev)
  }

  /** They are exactly the later towers higher than the level. */
  lemma {:induction false} ChainMembers(hs: seq<nat>, q: nat, lev: nat)
    requires q < |hs|
    ensures forall j :: j in Chain(hs, q, lev) <==> q < j < |hs| && hs[j] > lev
    decreases |hs| - q
  {
    var r := Succ(hs, q, lev);
    if r < |hs| {
      ChainMembers(hs, r, lev);
    }
  }

  ghost predicate Ascends(c: seq<nat>) {
    forall i, j :: 0 <= i < j < |c| ==> c[i] < c[j]
  }

  lemma {:induction false} ChainAscends(hs: seq<nat>, q: nat, lev: nat)
    requires q < |hs|
    ensures Ascends(Chain(hs, q, lev))
    decreases |hs| - q
  {
    var r := Succ(hs, q, lev);
    if r < |hs| {
      ChainAscends(hs, r, lev);
      ChainMembers(hs, r, lev);
      var c, d := Chain(hs, q, lev), Chain(hs, r, lev);
      assert c == [r] + d;
      forall i, j | 0 <= i < j < |c|
        ensures c[i] < c[j]
      {
        assert c[j] == d[j - 1] && d[j - 1] in d;
        assert i > 0 ==> c[i] == d[i - 1];
      }
    }
  }

  /** What follows a tower of a chain is that tower's own chain. */
  lemma {:induction false} ChainRest(hs: seq<nat>, q: nat, lev: nat, i: nat)
    requires q < |hs| && i < |Chain(hs, q, lev)|
    ensures Chain(hs, q, lev)[i] < |hs|
    ensures Chain(hs, q, lev)[i + 1..] == Chain(hs, Chain(hs, q, lev)[i], lev)
    decreases i
  {
    var r := Succ(hs, q, lev);
    var c, d := Chain(hs, q, lev), Chain(hs, r, lev);
    assert c == [r] + d;
    assert c[i + 1..] == d[i..];
    assert c[i] == if i == 0 then r else d[i - 1];
    if i == 0 {
      assert d[0..] == d;
    } else {
      ChainRest(hs, r, lev, i - 1);
    }
  }

  lemma {:induction false} LowestChain(hs: seq<nat>, q: nat)
    requires q < |hs| && forall j :: 0 <= j < |hs| ==> hs[j] > 0
    ensures Chain(hs, q, 0) == seq(|hs| - q - 1, i => q + 1 + i)
    decreases |hs| - q
  {
    SuccIs(hs, q, 0, q + 1);
    if q + 1 < |hs| {
      LowestChain(hs, q + 1);
    }
  }
}
