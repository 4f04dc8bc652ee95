/** A push seen one message at a time: copied into the child first, cleared from the parent last. */
module TreePushOne {
  import opened Keys
  import opened Msgs
  import opened TreeModel
  import opened TreeSteps

  /** One insertMsg of a push into c. */
  function Copied(s: Store, c: Nid, m: Msg): Store
    requires c in s && |s[c].pivots| > 0
  {
    s[c := s[c].(pivots := Deliver(s[c].pivots, m))]
  }

  /** The clear that ends a push. */
  function Cleared(s: Store, p: Nid, i: nat): Store
    requires p in s && i < |s[p].pivots|
  {
    s[p := s[p].(pivots := s[p].pivots[i := s[p].pivots[i].(buf := [])])]
  }

  lemma {:induction false} CopiedNode(s: Store, g: Layout, root: Nid, c: Nid, m: Msg, k: Key)
    requires Inv(s, g, root) && c in s && InRange(m.key, g[c].lo, g[c].hi)
    ensures |s[c].pivots| > 0
    ensures var r := Copied(s, c, m)[c];
            && NodeOk(r, g, g[c]) && SameShape(r.pivots, s[c].pivots) && |r.pivots| > 0
            && Route(r.pivots, k) == Route(s[c].pivots, k)
            && Here(Copied(s, c, m), c, k) == if k == m.key then Some(m) else Here(s, c, k)
  {
    hide Inv;
    NodeIsOk(s, g, root, c);
    DeliverOk(s[c].pivots, m, g[c].lo, g[c].hi, k);
    hide PivotsOk, Deliver;
    LinksSame(s[c], Copied(s, c, m)[c], g, g[c]);
  }

  lemma {:induction false} CopiedKeepsInv(s: Store, g: Layout, root: Nid, c: Nid, m: Msg)
    requires Inv(s, g, root) && c in s && InRange(m.key, g[c].lo, g[c].hi)
    ensures |s[c].pivots| > 0 && Inv(Copied(s, c, m), g, root)
  {
    hide Inv, NodeOk;
    CopiedNode(s, g, root, c, m, []);
    var s' := Copied(s, c, m);
    hide Deliver;
    forall a | a in s'
      ensures NodeOk(s'[a], g, g[a])
    {
      NodeIsOk(s, g, root, a);
    }
    NodesChanged(s, s', g, root);
  }

  /** The copy is what c now answers for its key; every other key is answered as before. */
  lemma {:induction false} FindInCopied(s: Store, g: Layout, root: Nid, c: Nid, m: Msg, k: Key)
    requires Inv(s, g, root) && c in s && InRange(m.key, g[c].lo, g[c].hi) && InRange(k, g[c].lo, g[c].hi)
    ensures |s[c].pivots| > 0
    ensures Find(Copied(s, c, m), c, g[c].level, k) == if k == m.key then Some(m) else Find(s, c, g[c].level, k)
  {
    hide Inv, Find, Lookup, NodeOk, Route;
    CopiedNode(s, g, root, c, m, k);
    var s' := Copied(s, c, m);
    assert At(s'[c].pivots, k).child == At(s[c].pivots, k).child;
    hide Copied, At;
    if g[c].level > 0 {
      ChildOf(s, g, root, c, k);
      FindStep(s, c, g[c].level, k);
      FindStep(s', c, g[c].level, k);
      CopiedElsewhere(s, c, m);
      FindSame(s, s', g, root, At(s[c].pivots, k).child, k);
    } else {
      FindAtLeaf(s, c, k);
      FindAtLeaf(s', c, k);
    }
  }

  lemma {:induction false} CopiedElsewhere(s: Store, c: Nid, m: Msg)
    requires c in s && |s[c].pivots| > 0
    ensures Copied(s, c, m).Keys == s.Keys && forall x :: x in s && x != c ==> Copied(s, c, m)[x] == s[x]
  {
  }

  /** A node that c is not below does not notice the copy. */
  lemma {:induction false} FindBesideCopied(s: Store, g: Layout, root: Nid, c: Nid, m: Msg, x: Nid, k: Key)
    requires Inv(s, g, root) && c in s && |s[c].pivots| > 0 && x in s && InRange(k, g[x].lo, g[x].hi)
    requires g[x].level < g[c].level || (g[x].level == g[c].level && x != c)
    ensures Find(Copied(s, c, m), x, g[x].level, k) == Find(s, x, g[x].level, k)
  {
    hide Inv, Find;
    CopiedElsewhere(s, c, m);
    hide Copied;
    FindSame(s, Copied(s, c, m), g, root, x, k);
  }

  /** A parent that still buffers the message answers as before once its child has a copy. */
  lemma {:induction false} FindAboveCopied(s: Store, g: Layout, root: Nid, p: Nid, i: nat, m: Msg, x: Nid, k: Key)
    requires Inv(s, g, root) && p in s && i < |s[p].pivots| && g[p].level > 0 && m in s[p].pivots[i].buf
    requires x in s && g[x].level == g[p].level && InRange(k, g[x].lo, g[x].hi)
    ensures var c := s[p].pivots[i].child; c in s && |s[c].pivots| > 0
    ensures Find(Copied(s, s[p].pivots[i].child, m), x, g[x].level, k) == Find(s, x, g[x].level, k)
  {
    hide Inv, Find, Lookup, Route, NodeOk;
    ChildAt(s, g, root, p, i);
    var c := s[p].pivots[i].child;
    BufferedBelongs(s, g, root, p, i, m);
    ChildOf(s, g, root, x, k);
    var y := At(s[x].pivots, k).child;
    var s' := Copied(s, c, m);
    CopiedElsewhere(s, c, m);
    hide Copied;
    FindStep(s, x, g[x].level, k);
    FindStep(s', x, g[x].level, k);
    if y == c {
      ParentIsUnique(s, g, root, p, i, x, Route(s[x].pivots, k), k);
      FindInCopied(s, g, root, c, m, k);
    } else {
      FindBesideCopied(s, g, root, c, m, y, k);
    }
  }

  /** A buffered message is found in its own buffer and is for the child below. */
  lemma {:induction false} BufferedBelongs(s: Store, g: Layout, root: Nid, p: Nid, i: nat, m: Msg)
    requires Inv(s, g, root) && p in s && i < |s[p].pivots| && m in s[p].pivots[i].buf
    ensures |s[p].pivots| > 0 && Route(s[p].pivots, m.key) == i && Here(s, p, m.key) == Some(m)
    ensures InRange(m.key, g[p].lo, g[p].hi)
    ensures g[p].level > 0 ==> var c := s[p].pivots[i].child; c in s && InRange(m.key, g[c].lo, g[c].hi)
  {
    hide Inv;
    NodeIsOk(s, g, root, p);
    var ps := s[p].pivots;
    assert BufOk(ps[i].buf, ps[i].leftKey, Hi(ps, i, g[p].hi));
    hide NodeOk, PivotsOk, LinksOk, Route, Lookup;
    RouteIs(ps, g[p].lo, g[p].hi, m.key, i);
    InNodeRange(ps, g[p].lo, g[p].hi, i, m.key);
    LookupMember(ps[i].buf, m.key);
    if g[p].level > 0 {
      ChildAt(s, g, root, p, i);
    }
  }

  /** Copying changes no read that starts at the parent's level or above. */
  lemma {:induction false} CopiedKeepsFind(s: Store, g: Layout, root: Nid, p: Nid, i: nat, m: Msg, id: Nid, k: Key)
    requires Inv(s, g, root) && p in s && i < |s[p].pivots| && g[p].level > 0 && m in s[p].pivots[i].buf
    requires id in s && g[id].level >= g[p].level && InRange(k, g[id].lo, g[id].hi)
    ensures var c := s[p].pivots[i].child; c in s && |s[c].pivots| > 0
    ensures Find(Copied(s, s[p].pivots[i].child, m), id, g[id].level, k) == Find(s, id, g[id].level, k)
  {
    hide Inv, Find;
    ChildAt(s, g, root, p, i);
    var c := s[p].pivots[i].child;
    var s' := Copied(s, c, m);
    CopiedElsewhere(s, c, m);
    hide Copied;
    forall x | x in s && g[x].level == g[p].level && InRange(k, g[x].lo, g[x].hi)
      ensures Find(s', x, g[p].level, k) == Find(s, x, g[p].level, k)
    {
      FindAboveCopied(s, g, root, p, i, m, x, k);
    }
    FindLift(s, s', g, root, id, k, g[p].level);
  }

  // ---------------------------------------------------------------- the clear

  lemma {:induction false} ClearedNode(s: Store, g: Layout, root: Nid, p: Nid, i: nat)
    requires Inv(s, g, root) && p in s && i < |s[p].pivots|
    ensures NodeOk(Cleared(s, p, i)[p], g, g[p]) && SameShape(Cleared(s, p, i)[p].pivots, s[p].pivots)
  {
    hide Inv;
    NodeIsOk(s, g, root, p);
    EmptyBufOk(s[p].pivots[i].leftKey, Hi(s[p].pivots, i, g[p].hi));
    BufReplacedOk(s[p].pivots, i, [], g[p].lo, g[p].hi);
    hide PivotsOk;
    LinksSame(s[p], Cleared(s, p, i)[p], g, g[p]);
  }

  lemma {:induction false} ClearedKeepsInv(s: Store, g: Layout, root: Nid, p: Nid, i: nat)
    requires Inv(s, g, root) && p in s && i < |s[p].pivots|
    ensures Inv(Cleared(s, p, i), g, root)
  {
    hide Inv, NodeOk;
    ClearedNode(s, g, root, p, i);
    var s' := Cleared(s, p, i);
    forall a | a in s'
      ensures NodeOk(s'[a], g, g[a])
    {
      NodeIsOk(s, g, root, a);
    }
    NodesChanged(s, s', g, root);
  }

  lemma {:induction false} HereInCleared(s: Store, p: Nid, i: nat, k: Key)
    requires p in s && i < |s[p].pivots|
    ensures Route(Cleared(s, p, i)[p].pivots, k) == Route(s[p].pivots, k)
    ensures At(Cleared(s, p, i)[p].pivots, k).child == At(s[p].pivots, k).child
    ensures Here(Cleared(s, p, i), p, k) == if Route(s[p].pivots, k) == i then None else Here(s, p, k)
  {
    SameRoute(s[p].pivots, Cleared(s, p, i)[p].pivots, k);
  }

  lemma {:induction false} ClearedElsewhere(s: Store, p: Nid, i: nat)
    requires p in s && i < |s[p].pivots|
    ensures Cleared(s, p, i).Keys == s.Keys && forall x :: x in s && x != p ==> Cleared(s, p, i)[x] == s[x]
  {
  }

  /** Once the child answers every buffered message, clearing the buffer changes nothing at p. */
  lemma {:induction false} FindAtCleared(s: Store, g: Layout, root: Nid, p: Nid, i: nat, k: Key)
    requires Inv(s, g, root) && p in s && i < |s[p].pivots| && g[p].level > 0 && InRange(k, g[p].lo, g[p].hi)
    requires forall m :: m in s[p].pivots[i].buf ==> Find(s, s[p].pivots[i].child, g[p].level - 1, m.key) == Some(m)
    ensures Find(Cleared(s, p, i), p, g[p].level, k) == Find(s, p, g[p].level, k)
  {
    hide Inv, Find, Route, NodeOk;
    ChildOf(s, g, root, p, k);
    var y := At(s[p].pivots, k).child;
    BufferSortedAt(s, g, root, p, i, k);
    hide Lookup;
    HereInCleared(s, p, i, k);
    ClearedElsewhere(s, p, i);
    hide Cleared;
    var s' := Cleared(s, p, i);
    FindStep(s, p, g[p].level, k);
    FindStep(s', p, g[p].level, k);
    FindSame(s, s', g, root, y, k);
  }

  lemma {:induction false} BufferSortedAt(s: Store, g: Layout, root: Nid, p: Nid, i: nat, k: Key)
    requires Inv(s, g, root) && p in s && i < |s[p].pivots|
    ensures Lookup(s[p].pivots[i].buf, k).Some? ==>
              Lookup(s[p].pivots[i].buf, k).value in s[p].pivots[i].buf && Lookup(s[p].pivots[i].buf, k).value.key == k
  {
    hide Inv;
    NodeIsOk(s, g, root, p);
    assert BufOk(s[p].pivots[i].buf, s[p].pivots[i].leftKey, Hi(s[p].pivots, i, g[p].hi));
    LookupMember(s[p].pivots[i].buf, k);
  }

  lemma {:induction false} ClearedKeepsFind(s: Store, g: Layout, root: Nid, p: Nid, i: nat, id: Nid, k: Key)
    requires Inv(s, g, root) && p in s && i < |s[p].pivots| && g[p].level > 0
    requires forall m :: m in s[p].pivots[i].buf ==> Find(s, s[p].pivots[i].child, g[p].level - 1, m.key) == Some(m)
    requires id in s && InRange(k, g[id].lo, g[id].hi)
    ensures Find(Cleared(s, p, i), id, g[id].level, k) == Find(s, id, g[id].level, k)
  {
    hide Inv, Find;
    ClearedElsewhere(s, p, i);
    var s' := Cleared(s, p, i);
    if g[id].level < g[p].level {
      hide Cleared;
      FindSame(s, s', g, root, id, k);
    } else {
      forall x | x in s && g[x].level == g[p].level && InRange(k, g[x].lo, g[x].hi)
        ensures Find(s', x, g[p].level, k) == Find(s, x, g[p].level, k)
      {
        if x == p {
          FindAtCleared(s, g, root, p, i, k);
        } else {
          FindSame(s, s', g, root, x, k);
        }
      }
      hide Cleared;
      FindLift(s, s', g, root, id, k, g[p].level);
    }
  }
}
