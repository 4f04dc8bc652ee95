/** Byte-string keys and the order everything else rests on (base/Slice.h). */
module Keys {
  type Byte = b: int | 0 <= b < 256
  type Key = seq<Byte>

  datatype Option<+T> = None | Some(value: T)

  /** memcmp on the first n bytes; only the sign of the result is ever used. */
  function Memcmp(a: Key, b: Key, n: nat): int
    requires n <= |a| && n <= |b|
  {
    if n == 0 then 0
    else if a[0] != b[0] then a[0] - b[0]
    else Memcmp(a[1..], b[1..], n - 1)
  }

  /** Slice::compare. */
  function Compare(a: Key, b: Key): int {
    var prefixLen := if |a| < |b| then |a| else |b|;
    var ret := Memcmp(a, b, prefixLen);
    if ret == 0 then
      if |a| < |b| then -1 else if |a| > |b| then 1 else 0
    else ret
  }

  /**
   * A key read as a base-257 fraction with digits b + 1: an independent description of the
   * lexicographic order, and one the verifier can do linear arithmetic with.
   */
  ghost function Rank(k: Key): (r: real)
    ensures 0.0 <= r < 1.0
    ensures r == 0.0 <==> k == []
  {
    if k == [] then 0.0 else (k[0] as real + 1.0 + Rank(k[1..])) / 257.0
  }

  /** Slice::compare orders keys exactly as their ranks, and answers 0 only on equal keys. */
  lemma {:induction false} CompareIsRankOrder(a: Key, b: Key)
    ensures Compare(a, b) < 0 <==> Rank(a) < Rank(b)
    ensures Compare(a, b) == 0 <==> a == b
    ensures Rank(a) == Rank(b) <==> a == b
  {
    if a != [] && b != [] {
      CompareIsRankOrder(a[1..], b[1..]);
      assert a == [a[0]] + a[1..] && b == [b[0]] + b[1..];
      if a[0] == b[0] {
        assert a == b <==> a[1..] == b[1..];
      } else if a[0] < b[0] {
        assert a[0] as real + 1.0 <= b[0] as real;
      } else {
        assert b[0] as real + 1.0 <= a[0] as real;
      }
    }
  }

  /** operator< on slices. */
  predicate Lt(a: Key, b: Key) {
    Compare(a, b) < 0
  }

  predicate Le(a: Key, b: Key) {
    !Lt(b, a)
  }

  /** a and b have their first i bytes in common, and then a ends or has the smaller byte. */
  ghost predicate SmallerAt(a: Key, b: Key, i: nat) {
    i <= |a| && i < |b| && a[..i] == b[..i] && (i == |a| || a[i] < b[i])
  }

  lemma {:induction false} LtOfTails(a: Key, b: Key)
    requires a != [] && b != []
    ensures Lt(a, b) <==> a[0] < b[0] || (a[0] == b[0] && Lt(a[1..], b[1..]))
  {
    CompareIsRankOrder(a, b);
    CompareIsRankOrder(a[1..], b[1..]);
    if a[0] < b[0] {
      assert a[0] as real + 1.0 <= b[0] as real;
    } else if b[0] < a[0] {
      assert b[0] as real + 1.0 <= a[0] as real;
    }
  }

  /** The order in bytes: it is decided where two keys first differ, and a proper prefix comes first. */
  lemma {:induction false} LtInBytes(a: Key, b: Key)
    ensures Lt(a, b) <==> exists i: nat :: SmallerAt(a, b, i)
  {
    if a == [] || b == [] {
      CompareIsRankOrder(a, b);
      if a == [] && b != [] {
        assert SmallerAt(a, b, 0);
      }
    } else {
      hide Lt;
      LtOfTails(a, b);
      LtInBytes(a[1..], b[1..]);
      TailsSmaller(a, b);
    }
  }

  lemma {:induction false} TailsSmaller(a: Key, b: Key)
    requires a != [] && b != []
    ensures (exists i: nat :: SmallerAt(a, b, i))
            <==> a[0] < b[0] || (a[0] == b[0] && exists i: nat :: SmallerAt(a[1..], b[1..], i))
  {
    if i: nat :| SmallerAt(a, b, i) {
      if i > 0 {
        assert a[..i][0] == a[0] && b[..i][0] == b[0];
        assert a[1..][..i - 1] == a[..i][1..] && b[1..][..i - 1] == b[..i][1..];
        assert SmallerAt(a[1..], b[1..], i - 1);
      }
    }
    if a[0] < b[0] {
      assert SmallerAt(a, b, 0);
    } else if a[0] == b[0] {
      if i: nat :| SmallerAt(a[1..], b[1..], i) {
        assert a[..i + 1] == [a[0]] + a[1..][..i] && b[..i + 1] == [b[0]] + b[1..][..i];
        assert SmallerAt(a, b, i + 1);
      }
    }
  }

  /** Every fact about the order, through ranks; lemmas that compare keys ask for it by name. */
  lemma KeyOrder()
    ensures forall a: Key, b: Key {:trigger Lt(a, b)} :: Lt(a, b) <==> Rank(a) < Rank(b)
    ensures forall a: Key, b: Key {:trigger Rank(a), Rank(b)} :: Rank(a) == Rank(b) <==> a == b
  {
    forall a: Key, b: Key
      ensures Lt(a, b) <==> Rank(a) < Rank(b)
      ensures Rank(a) == Rank(b) <==> a == b
    {
      CompareIsRankOrder(a, b);
    }
  }

  lemma EmptyKeyIsLeast(k: Key)
    ensures Le([], k) && Le(k, k) && !Lt(k, k) && !Lt(k, []) && (k != [] ==> Lt([], k))
  {
    KeyOrder();
  }

  lemma LtImpliesLe(a: Key, b: Key)
    requires a == b || Lt(a, b)
    ensures Le(a, b)
  {
    KeyOrder();
  }

  lemma LtTransitive(a: Key, b: Key, c: Key)
    requires a == b || Lt(a, b) || Le(a, b)
    requires b == c || Lt(b, c) || Le(b, c)
    ensures Le(a, c)
    ensures Lt(a, b) || Lt(b, c) ==> Lt(a, c)
  {
    KeyOrder();
  }
}
