/**
 The RANDOM workload: a shuffled order is linked into one cycle, and the token reached by any
 number of dependent loads is predicted by modular arithmetic on positions.
 */
module PointerChase {
  import opened Bits
  import opened Division
  import opened Xorshift

  const RNG_SEED := 0x4d595df4d0f33173

  /** Every index occurs exactly once. */
  ghost predicate IsPermutation(s: seq<nat>) {
    && (forall i :: 0 <= i < |s| ==> s[i] < |s|)
    && (forall i, j :: 0 <= i < j < |s| ==> s[i] != s[j])
    && (forall v: nat :: v < |s| ==> v in s)
  }

  function Swap(s: seq<nat>, i: nat, j: nat): (t: seq<nat>)
    requires i < |s| && j < |s|
    ensures |t| == |s|
  {
    s[i := s[j]][j := s[i]]
  }

  /** The shuffle for any picks: from the top down, position `i` is exchanged with some position up to `i`. */
  function Shuffle(s: seq<nat>, i: nat, pick: nat -> nat): (t: seq<nat>)
    requires i < |s|
    ensures |t| == |s|
    decreases i
  {
    if i == 0 then s else Shuffle(Swap(s, i, pick(i) % (i + 1)), i - 1, pick)
  }

  function Identity(n: nat): seq<nat> {
    seq(n, i => i)
  }

  /** The picks of the generator: it steps once before each of the positions from `n - 1` down. */
  function GeneratorPicks(n: nat): nat -> nat {
    i => if i < n then ToNat(Iterate(n - i, OfNat(RNG_SEED, 64))) else 0
  }

  /** The order every worker builds for `n` elements. */
  function Shuffled(n: nat): (t: seq<nat>)
    requires n > 0
    ensures |t| == n
  {
    Shuffle(Identity(n), n - 1, GeneratorPicks(n))
  }

  lemma SwapKeepsPermutation(s: seq<nat>, i: nat, j: nat)
    requires IsPermutation(s) && i < |s| && j < |s|
    ensures IsPermutation(Swap(s, i, j))
  {
    var t := Swap(s, i, j);
    forall v: nat | v < |t| ensures v in t {
      assert v in s;
      var k :| 0 <= k < |s| && s[k] == v;
      assert t[if k == i then j else if k == j then i else k] == v;
    }
  }

  /** Whatever positions are picked, the result is a permutation. */
  lemma {:induction false} ShuffleIsPermutation(s: seq<nat>, i: nat, pick: nat -> nat)
    requires IsPermutation(s) && i < |s|
    ensures IsPermutation(Shuffle(s, i, pick))
    decreases i
  {
    if i > 0 {
      SwapKeepsPermutation(s, i, pick(i) % (i + 1));
      ShuffleIsPermutation(Swap(s, i, pick(i) % (i + 1)), i - 1, pick);
    }
  }

  lemma IdentityIsPermutation(n: nat)
    ensures IsPermutation(Identity(n))
  {
    forall v: nat | v < n ensures v in Identity(n) {
      assert Identity(n)[v] == v;
    }
  }

  // --------------------------------------------------------------------------- the cycle

  /** Each element of `order` links to the next, the last to the first. */
  ghost predicate Linked(links: seq<nat>, order: seq<nat>) {
    && |links| == |order| > 0
    && IsPermutation(order)
    && forall i :: 0 <= i < |order| ==> links[order[i]] == order[if i + 1 == |order| then 0 else i + 1]
  }

  predicate InRange(links: seq<nat>) {
    forall t :: 0 <= t < |links| ==> links[t] < |links|
  }

  lemma LinkedInRange(links: seq<nat>, order: seq<nat>)
    requires Linked(links, order)
    ensures InRange(links)
  {
    forall t: nat | t < |links| ensures links[t] < |links| {
      assert t in order;
      var i :| 0 <= i < |order| && order[i] == t;
      assert links[order[i]] == order[if i + 1 == |order| then 0 else i + 1];
    }
  }

  /** The token after `k` dependent loads. */
  function Chase(links: seq<nat>, token: nat, k: nat): (t: nat)
    requires InRange(links) && token < |links|
    ensures t < |links|
  {
    if k == 0 then token else links[Chase(links, token, k - 1)]
  }

  lemma ChaseOnce(links: seq<nat>, order: seq<nat>, token: nat, k: nat, i: nat)
    requires Linked(links, order) && InRange(links) && token < |links| && i < |order|
    requires Chase(links, token, k) == order[i]
    ensures Chase(links, token, k + 1) == order[if i + 1 == |order| then 0 else i + 1]
  {
  }

  /** The position `k` places after `at` on a circle of `n`. */
  function Ahead(at: nat, k: nat, n: nat): (q: nat)
    requires n > 0
    ensures q < n
  {
    (at + k) % n
  }

  lemma AheadNext(at: nat, k: nat, n: nat)
    requires at < n
    ensures Ahead(at, 0, n) == at
    ensures Ahead(at, k + 1, n) == if Ahead(at, k, n) + 1 == n then 0 else Ahead(at, k, n) + 1
  {
    Wrap(at, at, n);
    ModStep(at + k, n);
  }

  /** Counting modulo the circle's length first does not change where one arrives. */
  lemma AheadReduced(at: nat, k: nat, n: nat)
    requires at < n
    ensures Ahead(at, k % n, n) == Ahead(at, k, n)
  {
    Wrap(at, at, n);
    ModAdd(at, k, n);
  }

  /** Two stretches make one. */
  lemma AheadTwice(at: nat, j: nat, k: nat, n: nat)
    requires at < n
    ensures Ahead(Ahead(at, j, n), k, n) == Ahead(at, j + k, n)
  {
    hide Ahead;
    AheadTwiceReduced(at, j, k, n);
    AheadReduced(Ahead(at, j, n), k, n);
  }

  lemma AheadTwiceReduced(at: nat, j: nat, k: nat, n: nat)
    requires n > 0
    ensures Ahead(Ahead(at, j, n), k % n, n) == Ahead(at, j + k, n)
  {
    AheadOfSum(at + j, k, n);
    assert at + (j + k) == (at + j) + k;
  }

  lemma AheadOfSum(a: nat, k: nat, n: nat)
    requires n > 0
    ensures Ahead(a % n, k % n, n) == (a + k) % n
  {
    ModAdd(a, k, n);
  }

  /** Less than a full circle never returns, and a full circle does. */
  lemma AheadAround(at: nat, k: nat, n: nat)
    requires at < n && k <= n
    ensures Ahead(at, k, n) == if at + k < n then at + k else at + k - n
  {
    Wrap(at + k, if at + k < n then at + k else at + k - n, n);
  }

  /** `k` loads from position `p` of the order end at position `p + k` modulo the length. */
  lemma {:induction false} ChaseAdvances(links: seq<nat>, order: seq<nat>, p: nat, k: nat)
    requires Linked(links, order) && InRange(links) && p < |order|
    ensures Chase(links, order[p], k) == order[Ahead(p, k, |order|)]
  {
    assert |links| == |order| > 0;
    hide Linked, InRange, Ahead;
    AheadNext(p, if k == 0 then 0 else k - 1, |order|);
    if k > 0 {
      ChaseAdvances(links, order, p, k - 1);
      ChaseOnce(links, order, order[p], k - 1, Ahead(p, k - 1, |order|));
    }
  }

  /** The position of a token in the order. */
  lemma PositionOf(links: seq<nat>, order: seq<nat>, a: nat) returns (p: nat)
    requires Linked(links, order) && a < |links|
    ensures InRange(links) && |order| == |links| && p < |order| && order[p] == a
  {
    LinkedInRange(links, order);
    assert a in order;
    p :| p < |order| && order[p] == a;
  }

  lemma DifferentPositions(links: seq<nat>, order: seq<nat>, p: nat, q: nat)
    requires Linked(links, order) && p < |order| && q < |order| && p != q
    ensures order[p] != order[q]
  {
  }

  /** The links form one single cycle through all elements: any token reaches any other in fewer than `n` loads. */
  lemma AnyReachesAny(links: seq<nat>, order: seq<nat>, a: nat, b: nat)
    requires Linked(links, order) && a < |links| && b < |links|
    ensures InRange(links)
    ensures exists k :: 0 <= k < |links| && Chase(links, a, k) == b
  {
    var p := PositionOf(links, order, a);
    var q := PositionOf(links, order, b);
    var d := if p <= q then q - p else q + |links| - p;
    hide Linked, InRange, Ahead;
    ChaseAdvances(links, order, p, d);
    AheadAround(p, d, |order|);
  }

  /** Every token comes back to itself after `n` loads, and not before. */
  lemma OneCycle(links: seq<nat>, order: seq<nat>, a: nat)
    requires Linked(links, order) && a < |links|
    ensures InRange(links)
    ensures Chase(links, a, |links|) == a
    ensures forall k :: 0 < k < |links| ==> Chase(links, a, k) != a
  {
    var p := PositionOf(links, order, a);
    var n := |links|;
    hide Linked, InRange, Ahead;
    ChaseAdvances(links, order, p, n);
    AheadAround(p, n, n);
    forall k | 0 < k < n ensures Chase(links, a, k) != a {
      ChaseAdvances(links, order, p, k);
      AheadAround(p, k, n);
      DifferentPositions(links, order, p, Ahead(p, k, n));
    }
  }

  // ------------------------------------------------------------------------ the C routine

  /** The position of token 0, where every chase starts. */
  function Position(s: seq<nat>, v: nat): (i: nat)
    requires v in s
    ensures i < |s| && s[i] == v
  {
    if s[0] == v then 0 else assert v in s[1..]; 1 + Position(s[1..], v)
  }

  /** The token `loads` positions after token 0. */
  function After(order: seq<nat>, loads: nat): nat
    requires 0 in order
  {
    order[Ahead(Position(order, 0), loads, |order|)]
  }

  method Exchange(a: array<nat>, i: nat, j: nat)
    requires i < a.Length && j < a.Length
    modifies a
    ensures a[..] == Swap(old(a[..]), i, j)
    ensures a[i] == old(a[j]) && a[j] == old(a[i])
    ensures forall k :: 0 <= k < a.Length && k != i && k != j ==> a[k] == old(a[k])
  {
    var temp := a[i];
    a[i] := a[j];
    a[j] := temp;
  }

  method FillIdentity(order: array<nat>)
    modifies order
    ensures order[..] == Identity(order.Length)
  {
    for i := 0 to order.Length
      invariant forall k :: 0 <= k < i ==> order[k] == k
    {
      order[i] := i;
    }
  }

  /** The generator's next word is the pick for the position at hand. */
  lemma NextPick(n: nat, i: nat, rng: Word)
    requires 0 < i < n && rng == Iterate(n - 1 - i, OfNat(RNG_SEED, 64))
    ensures Step(rng) == Iterate(n - 1 - (i - 1), OfNat(RNG_SEED, 64))
    ensures GeneratorPicks(n)(i) == ToNat(Step(rng))
  {
    hide Step, OfNat;
    assert Iterate(n - i, OfNat(RNG_SEED, 64)) == Step(Iterate(n - i - 1, OfNat(RNG_SEED, 64)));
  }

  /** What is left of the shuffle after one exchange. */
  lemma ShuffleNext(s: seq<nat>, i: nat, pick: nat -> nat, drawn: nat)
    requires 0 < i < |s| && drawn == pick(i)
    ensures drawn % (i + 1) < |s|
    ensures Shuffle(s, i, pick) == Shuffle(Swap(s, i, drawn % (i + 1)), i - 1, pick)
  {
  }

  lemma ShuffleStarts(n: nat)
    requires n > 0
    ensures Iterate(0, OfNat(RNG_SEED, 64)) == OfNat(RNG_SEED, 64)
    ensures Shuffle(Identity(n), n - 1, GeneratorPicks(n)) == Shuffled(n)
    ensures IsPermutation(Shuffled(n))
  {
    IdentityIsPermutation(n);
    ShuffleIsPermutation(Identity(n), n - 1, GeneratorPicks(n));
  }

  lemma ShuffleEnds(s: seq<nat>, pick: nat -> nat)
    requires |s| > 0
    ensures Shuffle(s, 0, pick) == s
  {
  }

  /** Shuffles in place, stepping the generator once for every position. */
  method BuildOrder(order: array<nat>)
    requires order.Length > 0
    modifies order
    ensures order[..] == Shuffled(order.Length) && IsPermutation(order[..])
  {
    hide Step, Iterate, GeneratorPicks, IsPermutation, OfNat, ToNat, Shuffle, Shuffled, Identity, Swap;
    var n := order.Length;
    FillIdentity(order);
    ShuffleStarts(n);
    var rng: Word := OfNat(RNG_SEED, 64);
    var i := n - 1;
    while i > 0
      invariant 0 <= i < n
      invariant rng == Iterate(n - 1 - i, OfNat(RNG_SEED, 64))
      invariant Shuffle(order[..], i, GeneratorPicks(n)) == Shuffled(n)
    {
      NextPick(n, i, rng);
      rng := Step(rng);
      ShuffleNext(order[..], i, GeneratorPicks(n), ToNat(rng));
      var other := ToNat(rng) % (i + 1);
      Exchange(order, i, other);
      i := i - 1;
    }
    ShuffleEnds(order[..], GeneratorPicks(n));
  }

  /** Links the elements in order and notes where token 0 stands. */
  method BuildLinks(order: array<nat>, links: array<nat>) returns (zeroPosition: nat)
    requires order.Length == links.Length > 0 && order != links && IsPermutation(order[..])
    modifies links
    ensures Linked(links[..], order[..])
    ensures links[order[order.Length - 1]] == order[0]
    ensures forall i :: 0 <= i < order.Length - 1 ==> links[order[i]] == order[i + 1]
    ensures zeroPosition < order.Length && order[zeroPosition] == 0
  {
    zeroPosition := 0;
    for i := 0 to order.Length
      invariant zeroPosition < order.Length
      invariant forall k :: 0 <= k < i ==> links[order[k]] == order[if k + 1 == order.Length then 0 else k + 1]
      invariant order[zeroPosition] == 0 || 0 !in order[..i]
    {
      var next := if i + 1 == order.Length then 0 else i + 1;
      assert order[..][i] == order[i];
      forall k | 0 <= k < i ensures order[k] != order[i] {
        assert order[..][k] != order[..][i];
      }
      links[order[i]] := order[next];
      if order[i] == 0 {
        zeroPosition := i;
      }
    }
    assert order[..order.Length] == order[..] && 0 in order[..];
  }

  /** Follows `loads` dependent links. */
  method Follow(links: array<nat>, start: nat, loads: nat) returns (token: nat)
    requires InRange(links[..]) && start < links.Length
    ensures token == Chase(links[..], start, loads)
  {
    token := start;
    for access := 0 to loads
      invariant token == Chase(links[..], start, access)
    {
      assert links[..][token] == links[token];
      token := links[token];
    }
  }

  /**
   Setup, warm-up and one measured run. The warm-up check and the final check both succeed, and the
   final token depends only on the element count and the two access counts.
   */
  method RandomWorkload(count: nat, warmup: u64, accesses: u64) returns (warmOk: bool, verified: bool, finalToken: nat)
    requires 0 < count <= 0xffff_ffff
    ensures warmOk && verified
    ensures 0 in Shuffled(count) && finalToken == After(Shuffled(count), warmup + accesses)
  {
    var order := new nat[count](_ => 0);
    var links := new nat[count](_ => 0);
    BuildOrder(order);
    ghost var s := order[..];
    var zeroPosition := BuildLinks(order, links);
    assert order[..] == s;
    LinkedInRange(links[..], s);
    Prediction(links[..], s, zeroPosition, warmup, accesses);
    hide IsPermutation, After, Linked, InRange, Chase, Ahead;

    var warmToken := Follow(links, 0, warmup);
    var warmPosition := Ahead(zeroPosition, warmup % count, count);
    var expectedWarm := order[warmPosition];
    var finalPosition := Ahead(warmPosition, accesses % count, count);
    var expectedFinal := order[finalPosition];
    warmOk := warmToken == expectedWarm;

    finalToken := Follow(links, warmToken, accesses);
    verified := finalToken == expectedFinal;
  }

  /** The two chases of the worker end where its position arithmetic says. */
  lemma Prediction(links: seq<nat>, order: seq<nat>, zero: nat, warmup: nat, accesses: nat)
    requires Linked(links, order) && InRange(links) && zero < |order| && order[zero] == 0
    ensures var n := |order|;
            var warm := Ahead(zero, warmup % n, n);
            var last := Ahead(warm, accesses % n, n);
            && Chase(links, 0, warmup) == order[warm]
            && Chase(links, order[warm], accesses) == order[last]
            && 0 in order && order[last] == After(order, warmup + accesses)
  {
    PositionUnique(order, zero);
    hide Linked, InRange, Chase, Ahead, IsPermutation;
    var n := |order|;
    AheadReduced(zero, warmup, n);
    var warm := Ahead(zero, warmup, n);
    AheadReduced(warm, accesses, n);
    AheadTwice(zero, warmup, accesses, n);
    ChaseAdvances(links, order, zero, warmup);
    ChaseAdvances(links, order, warm, accesses);
  }

  lemma PositionUnique(s: seq<nat>, i: nat)
    requires IsPermutation(s) && i < |s| && s[i] == 0
    ensures 0 in s && Position(s, 0) == i
  {
    var j := Position(s, 0);
  }
}
