/**
 The backend pool of one service (proxy/pool.go): a member sequence that is replaced, never edited,
 and a round-robin position that counts in 64 bits.
 */
module PoolRotation {
  import opened ServiceIndex

  const TWO64 := 0x1_0000_0000_0000_0000

  class BackendPool {
    var members: seq<Backend>
    var next: nat

    ghost predicate Valid()
      reads this
    {
      next < TWO64
    }

    constructor ()
      ensures Valid() && members == [] && next == 0
    {
      members, next := [], 0;
    }

    method Add(b: Backend) returns (size: nat)
      requires Valid()
      modifies this`members
      ensures Valid() && members == old(members) + [b] && size == |members|
    {
      var updated := members + [b];
      members := updated;
      size := |updated|;
    }

    method Remove(key: Key) returns (size: nat)
      requires Valid()
      modifies this`members
      ensures Valid() && members == Without(old(members), key) && size == |members|
    {
      var updated := Without(members, key);
      members := updated;
      size := |updated|;
    }

    /** The atomic increment; the position before it is the caller's. */
    method Advance() returns (pos: nat)
      requires Valid()
      modifies this`next
      ensures Valid() && pos == old(next) && next == (old(next) + 1) % TWO64
    {
      next := (next + 1) % TWO64;
      pos := (next + TWO64 - 1) % TWO64;
    }

    /** The position is taken modulo the size of the snapshot, not of the pool as it is by then,
        so members joining or leaving between the two cannot put the index out of range. */
    method Assign(snapshot: seq<Backend>) returns (index: nat)
      requires Valid() && snapshot != []
      modifies this`next
      ensures Valid() && next == (old(next) + 1) % TWO64
      ensures index == old(next) % |snapshot| && index < |snapshot|
    {
      var pos := Advance();
      index := pos % |snapshot|;
    }

    method Rotation() returns (snapshot: seq<Backend>, index: nat)
      requires Valid()
      modifies this`next
      ensures Valid() && snapshot == members
      ensures snapshot == [] ==> index == 0 && next == old(next)
      ensures snapshot != [] ==> index == old(next) % |snapshot| && next == (old(next) + 1) % TWO64
    {
      snapshot := members;
      if snapshot == [] {
        return snapshot, 0;
      }
      index := Assign(snapshot);
    }
  }

  /** Deleting keeps the order of the rest: it acts on each part of the sequence by itself. */
  lemma {:induction false} WithoutKeepsOrder(front: seq<Backend>, back: seq<Backend>, k: Key, all: seq<Backend>)
    requires all == front + back
    ensures Without(all, k) == Without(front, k) + Without(back, k)
  {
    if front == [] {
      assert all == back;
    } else {
      var rest := Without(front[1..], k);
      assert all[1..] == front[1..] + back && all[0] == front[0];
      WithoutKeepsOrder(front[1..], back, k, all[1..]);
      Parts([front[0]], rest, Without(back, k));
    }
  }

  lemma Parts(a: seq<Backend>, b: seq<Backend>, c: seq<Backend>)
    ensures a + (b + c) == (a + b) + c
  {
  }

  // ------------------------------------------------------------------ fairness

  /** The member the i-th rotation after position p starts at, in an unchanged pool of n. */
  function StartAt(p: nat, i: nat, n: nat): (j: nat)
    requires n > 0
    ensures j < n
  {
    ((p + i) % TWO64) % n
  }

  /** The positions that successive rotations take from the counter are those starts. */
  lemma {:induction false} PositionsRunOn(positions: seq<nat>, i: nat, n: nat)
    requires n > 0 && i < |positions| && positions[0] < TWO64
    requires forall h :: 0 <= h < |positions| - 1 ==> positions[h + 1] == (positions[h] + 1) % TWO64
    ensures positions[i] == (positions[0] + i) % TWO64
    ensures positions[i] % n == StartAt(positions[0], i, n)
  {
    if i == 0 {
      ModUnique(positions[0], TWO64, 0, positions[0]);
    } else {
      PositionsRunOn(positions, i - 1, n);
      assert positions[(i - 1) + 1] == (positions[i - 1] + 1) % TWO64;
      NextPosition(positions[0] + i - 1);
    }
  }

  lemma NextPosition(x: nat)
    ensures (x % TWO64 + 1) % TWO64 == (x + 1) % TWO64
  {
    var q, r := x / TWO64, x % TWO64;
    if r + 1 == TWO64 {
      ModUnique(x + 1, TWO64, q + 1, 0);
      ModUnique(r + 1, TWO64, 1, 0);
    } else {
      ModUnique(x + 1, TWO64, q, r + 1);
      ModUnique(r + 1, TWO64, 0, r + 1);
    }
  }

  /** How many of the k rotations from position p on start at member j. */
  function Starts(p: nat, k: nat, n: nat, j: nat): nat
    requires n > 0
  {
    if k == 0 then 0 else Starts(p, k - 1, n, j) + (if StartAt(p, k - 1, n) == j then 1 else 0)
  }

  /** The same count by plain positions, which never wrap. */
  function Hits(p: nat, k: nat, n: nat, j: nat): nat
    requires n > 0
  {
    if k == 0 then 0 else Hits(p, k - 1, n, j) + (if (p + k - 1) % n == j then 1 else 0)
  }

  /** Rounded down or rounded up, and nothing else. */
  predicate FairShare(count: nat, k: nat, n: nat)
    requires n > 0
  {
    k / n <= count <= (k + n - 1) / n
  }

  lemma {:induction false} HitsSplit(p: nat, a: nat, b: nat, n: nat, j: nat)
    requires n > 0
    ensures Hits(p, a + b, n, j) == Hits(p, a, n, j) + Hits(p + a, b, n, j)
    decreases b
  {
    if b > 0 {
      HitsSplit(p, a, b - 1, n, j);
    }
  }

  lemma ModUnique(x: nat, n: nat, q: nat, r: nat)
    requires n > 0 && x == n * q + r && r < n
    ensures x % n == r && x / n == q
  {
    var d := x / n - q;
    assert x % n == r - n * d;
    assert d > 0 ==> n * d >= n;
    assert d < 0 ==> n * d + n <= 0;
  }

  /** Over fewer than n consecutive positions the residues run on without meeting twice: member j
      is hit exactly when its distance from the first residue is within the window. */
  lemma {:induction false} ShortHits(p: nat, k: nat, n: nat, j: nat)
    requires n > 0 && k <= n && j < n
    ensures Hits(p, k, n, j) == if (j + n - p % n) % n < k then 1 else 0
  {
    if k > 0 {
      ShortHits(p, k - 1, n, j);
      Distance(p, k - 1, n, j);
    }
  }

  /** Position p + i falls on j exactly when i is the distance from p's residue to j. */
  lemma Distance(p: nat, i: nat, n: nat, j: nat)
    requires n > 0 && i < n && j < n
    ensures (p + i) % n == j <==> (j + n - p % n) % n == i
  {
    var q, r := p / n, p % n;
    assert p == n * q + r;
    if r + i < n {
      ModUnique(p + i, n, q, r + i);
    } else {
      assert p + i == n * (q + 1) + (r + i - n);
      ModUnique(p + i, n, q + 1, r + i - n);
    }
    if j >= r {
      ModUnique(j + n - r, n, 1, j - r);
    } else {
      ModUnique(j + n - r, n, 0, j + n - r);
    }
  }

  lemma {:induction false} HitsFair(p: nat, k: nat, n: nat, j: nat)
    requires n > 0 && j < n
    ensures FairShare(Hits(p, k, n, j), k, n)
    decreases k
  {
    if k < n {
      ShortHits(p, k, n, j);
      ModUnique(k, n, 0, k);
      if k == 0 {
        ModUnique(n - 1, n, 0, n - 1);
      } else {
        ModUnique(k + n - 1, n, 1, k - 1);
      }
    } else {
      ShortHits(p, n, n, j);
      HitsSplit(p, n, k - n, n, j);
      HitsFair(p + n, k - n, n, j);
      LessOne(k, n);
      LessOne(k + n - 1, n);
    }
  }

  lemma LessOne(x: nat, n: nat)
    requires n > 0 && x >= n
    ensures (x - n) / n == x / n - 1
  {
    assert x == n * (x / n) + x % n;
    assert x / n >= 1 by {
      assert x % n < n;
    }
    assert x - n == n * (x / n - 1) + x % n;
    ModUnique(x - n, n, x / n - 1, x % n);
  }

  /** Round-robin is fair: in a window that does not cross the wrap of the counter, each member of
      an unchanged pool gets its share of the starts, rounded down or up. */
  lemma {:induction false} RoundRobinFair(p: nat, k: nat, n: nat, j: nat)
    requires n > 0 && j < n && p + k <= TWO64
    ensures FairShare(Starts(p, k, n, j), k, n)
  {
    StartsAreHits(p, k, n, j);
    HitsFair(p, k, n, j);
  }

  lemma {:induction false} StartsAreHits(p: nat, k: nat, n: nat, j: nat)
    requires n > 0 && (p + k <= TWO64 || TWO64 % n == 0)
    ensures Starts(p, k, n, j) == Hits(p, k, n, j)
  {
    if k > 0 {
      StartsAreHits(p, k - 1, n, j);
      StartIsResidue(p, k - 1, n);
    }
  }

  lemma StartIsResidue(p: nat, i: nat, n: nat)
    requires n > 0 && (p + i < TWO64 || TWO64 % n == 0)
    ensures StartAt(p, i, n) == (p + i) % n
  {
    if p + i < TWO64 {
      ModUnique(p + i, TWO64, 0, p + i);
    } else {
      WrapKeepsResidue(p + i, n);
    }
  }

  lemma WrapKeepsResidue(x: nat, n: nat)
    requires n > 0 && TWO64 % n == 0
    ensures (x % TWO64) % n == x % n
  {
    var m := TWO64 / n;
    assert TWO64 == n * m;
    var y := x % TWO64;
    assert x == TWO64 * (x / TWO64) + y;
    var q, r := y / n, y % n;
    assert y == n * q + r;
    assert x == n * (m * (x / TWO64) + q) + r by {
      assert TWO64 * (x / TWO64) == n * (m * (x / TWO64));
    }
    ModUnique(x, n, m * (x / TWO64) + q, r);
  }

  ghost predicate AlwaysFair(n: nat)
    requires n > 0
  {
    forall p: nat, k: nat, j: nat :: p < TWO64 && j < n ==> FairShare(Starts(p, k, n, j), k, n)
  }

  /** Across the wrap it is fair for every window exactly when the pool size divides 2^64. */
  lemma FairAcrossWrapIff(n: nat)
    requires 0 < n <= TWO64
    ensures AlwaysFair(n) <==> TWO64 % n == 0
  {
    if TWO64 % n == 0 {
      forall p: nat, k: nat, j: nat | p < TWO64 && j < n
        ensures FairShare(Starts(p, k, n, j), k, n)
      {
        StartsAreHits(p, k, n, j);
        HitsFair(p, k, n, j);
      }
    } else {
      UnfairAcrossWrap(n);
    }
  }

  /** The window that shows it: the last m positions before the wrap and the first one after it
      both start at member 0, where m is what 2^64 leaves over. */
  lemma UnfairAcrossWrap(n: nat)
    requires 0 < n <= TWO64 && TWO64 % n != 0
    ensures
      var m := TWO64 % n;
      Starts(TWO64 - m, m + 1, n, 0) == 2 && !FairShare(2, m + 1, n)
  {
    var m := TWO64 % n;
    var p := TWO64 - m;
    assert p == n * (TWO64 / n);
    ModUnique(p, n, TWO64 / n, 0);
    StartsAreHits(p, m, n, 0);
    ShortHits(p, m, n, 0);
    ModUnique(n, n, 1, 0);
    assert StartAt(p, m, n) == 0 by {
      ModUnique(TWO64, TWO64, 1, 0);
      ModUnique(0, n, 0, 0);
    }
    assert (m + 1 + n - 1) / n == 1 by {
      ModUnique(m + n, n, 1, m);
    }
  }
}
