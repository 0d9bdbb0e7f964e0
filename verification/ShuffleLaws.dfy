/** What the shuffle of the RANDOM workload does to the order: its steps one by one, and which orders it can reach. */
module ShuffleLaws {
  import opened Bits
  import opened Xorshift
  import opened PointerChase

  /** One exchange between two positions, and nothing else. */
  predicate Exchanged(s: seq<nat>, t: seq<nat>, i: nat, j: nat) {
    && i < |s| == |t| && j < |s|
    && t[i] == s[j] && t[j] == s[i]
    && forall k :: 0 <= k < |s| && k != i && k != j ==> t[k] == s[k]
  }

  /** Positions above the one at hand are left alone. */
  lemma {:induction false} KeepsAbove(s: seq<nat>, i: nat, pick: nat -> nat, k: nat)
    requires i < k < |s|
    ensures Shuffle(s, i, pick)[k] == s[k]
    decreases i
  {
    if i > 0 {
      KeepsAbove(Swap(s, i, pick(i) % (i + 1)), i - 1, pick, k);
    }
  }

  /** The element put in place first is the one picked for the last position. */
  lemma PickedLands(s: seq<nat>, i: nat, pick: nat -> nat)
    requires 0 < i < |s| && pick(i) <= i
    ensures Shuffle(s, i, pick)[i] == s[pick(i)]
  {
    KeepsAbove(Swap(s, i, pick(i)), i - 1, pick, i);
    SmallPick(pick(i), i);
  }

  lemma SmallPick(p: nat, i: nat)
    requires p <= i
    ensures p % (i + 1) == p
  {
  }

  /** Only the picks for the positions still to come matter. */
  lemma {:induction false} SamePicks(s: seq<nat>, i: nat, pick: nat -> nat, pick': nat -> nat)
    requires i < |s| && forall k :: 0 < k <= i ==> pick(k) == pick'(k)
    ensures Shuffle(s, i, pick) == Shuffle(s, i, pick')
    decreases i
  {
    if i > 0 {
      SamePicks(Swap(s, i, pick(i) % (i + 1)), i - 1, pick, pick');
    }
  }

  /** Where a value stands that is not above position `i`. */
  lemma PositionBelow(s: seq<nat>, t: seq<nat>, i: nat) returns (j: nat)
    requires IsPermutation(s) && IsPermutation(t) && i < |s| == |t|
    requires forall k :: i < k < |s| ==> s[k] == t[k]
    ensures j <= i && s[j] == t[i]
  {
    assert t[i] in s;
    j :| 0 <= j < |s| && s[j] == t[i];
    forall k | i < k < |s| ensures s[k] != t[i] {
      assert t[k] != t[i];
    }
  }

  /** Every order that agrees above `i` can be reached. */
  lemma {:induction false} Reaches(s: seq<nat>, t: seq<nat>, i: nat) returns (pick: nat -> nat)
    requires IsPermutation(s) && IsPermutation(t) && i < |s| == |t|
    requires forall k :: i < k < |s| ==> s[k] == t[k]
    ensures Shuffle(s, i, pick) == t && forall k :: 0 < k <= i ==> pick(k) <= k
    decreases i
  {
    hide IsPermutation, Shuffle, Swap;
    var j := PositionBelow(s, t, i);
    if i == 0 {
      pick := (k: nat) => 0;
      ShuffleEnds(s, pick);
      assert s == t;
    } else {
      SwapKeepsPermutation(s, i, j);
      SwapAgrees(s, t, i, j);
      var rest := Reaches(Swap(s, i, j), t, i - 1);
      pick := OnePickMore(s, i, j, rest);
    }
  }

  lemma SwapAgrees(s: seq<nat>, t: seq<nat>, i: nat, j: nat)
    requires j <= i < |s| == |t| && s[j] == t[i] && forall k :: i < k < |s| ==> s[k] == t[k]
    ensures forall k :: i - 1 < k < |s| ==> Swap(s, i, j)[k] == t[k]
  {
  }

  lemma OnePickMore(s: seq<nat>, i: nat, j: nat, rest: nat -> nat) returns (pick: nat -> nat)
    requires 0 < i < |s| && j <= i
    ensures Shuffle(s, i, pick) == Shuffle(Swap(s, i, j), i - 1, rest)
    ensures pick(i) == j && forall k :: k != i ==> pick(k) == rest(k)
  {
    hide Shuffle, Swap;
    pick := (k: nat) => if k == i then j else rest(k);
    SmallPick(j, i);
    SamePicks(Swap(s, i, j), i - 1, pick, rest);
    ShuffleNext(s, i, pick, j);
  }

  lemma OnePlaceOnly(s: seq<nat>, i: nat, j: nat)
    requires IsPermutation(s) && i < |s| && j < |s| && s[i] == s[j]
    ensures i == j
  {
  }

  /** And by one choice of picks only. */
  lemma {:induction false} PicksAreUnique(s: seq<nat>, i: nat, pick: nat -> nat, pick': nat -> nat, k: nat)
    requires IsPermutation(s) && i < |s| && Shuffle(s, i, pick) == Shuffle(s, i, pick') && 0 < k <= i
    requires forall j :: 0 < j <= i ==> pick(j) <= j && pick'(j) <= j
    ensures pick(k) == pick'(k)
    decreases i
  {
    PickedLands(s, i, pick);
    PickedLands(s, i, pick');
    OnePlaceOnly(s, pick(i), pick'(i));
    if k < i {
      SmallPick(pick(i), i);
      SwapKeepsPermutation(s, i, pick(i));
      PicksAreUnique(Swap(s, i, pick(i)), i - 1, pick, pick', k);
    }
  }

  /** The picks, each at most its position, turn 0 .. |t| - 1 into `t`. */
  ghost predicate Makes(pick: nat -> nat, t: seq<nat>)
    requires t != []
  {
    Shuffle(Identity(|t|), |t| - 1, pick) == t && forall k :: 0 < k < |t| ==> pick(k) <= k
  }

  /**
   * The law of the shuffle: every permutation of 0 .. n - 1 is what it makes of the identity under some picks, and
   * under no others.
   */
  lemma EveryOrderOnce(t: seq<nat>) returns (pick: nat -> nat)
    requires IsPermutation(t) && t != []
    ensures Makes(pick, t)
    ensures forall other, k: nat :: Makes(other, t) && 0 < k < |t| ==> other(k) == pick(k)
  {
    IdentityIsPermutation(|t|);
    pick := Reaches(Identity(|t|), t, |t| - 1);
    assert Makes(pick, t);
    hide Makes;
    forall other, k: nat | Makes(other, t) && 0 < k < |t| ensures other(k) == pick(k) {
      MakersAgree(t, other, pick, k);
    }
  }

  lemma MakersAgree(t: seq<nat>, pick: nat -> nat, pick': nat -> nat, k: nat)
    requires t != [] && Makes(pick, t) && Makes(pick', t) && 0 < k < |t|
    ensures pick(k) == pick'(k)
  {
    IdentityIsPermutation(|t|);
    hide IsPermutation, Identity, Shuffle;
    PicksAreUnique(Identity(|t|), |t| - 1, pick, pick', k);
  }

  /** The orders the worker passes through from position `i` down, each one exchange from the one before. */
  ghost predicate Trace(trace: seq<seq<nat>>, i: nat, pick: nat -> nat) {
    && |trace| == i + 1
    && forall k :: 0 <= k < i ==> Exchanged(trace[k], trace[k + 1], i - k, pick(i - k) % (i - k + 1))
  }

  lemma {:induction false} ShuffleTrace(s: seq<nat>, i: nat, pick: nat -> nat) returns (trace: seq<seq<nat>>)
    requires i < |s|
    ensures Trace(trace, i, pick) && trace[0] == s && trace[i] == Shuffle(s, i, pick)
    decreases i
  {
    if i == 0 {
      trace := [s];
    } else {
      var next := Swap(s, i, pick(i) % (i + 1));
      var rest := ShuffleTrace(next, i - 1, pick);
      trace := [s] + rest;
      forall k | 0 <= k < i ensures Exchanged(trace[k], trace[k + 1], i - k, pick(i - k) % (i - k + 1)) {
        if k > 0 {
          assert Exchanged(rest[k - 1], rest[k], (i - 1) - (k - 1), pick(i - k) % (i - k + 1));
        }
      }
    }
  }

  /**
   * The order every worker builds: from 0, 1, 2, ... each position from the last down is exchanged once, with the
   * position the generator's next word selects, the generator being stepped once before each exchange.
   */
  lemma OrderTrace(n: nat) returns (trace: seq<seq<nat>>)
    requires n > 0
    ensures |trace| == n && trace[n - 1] == Shuffled(n)
    ensures |trace[0]| == n && forall k :: 0 <= k < n ==> trace[0][k] == k
    ensures forall k :: 0 <= k < n - 1 ==>
              Exchanged(trace[k], trace[k + 1], n - 1 - k,
                        ToNat(Iterate(k + 1, OfNat(0x4d595df4d0f33173, 64))) % (n - k))
  {
    trace := ShuffleTrace(Identity(n), n - 1, GeneratorPicks(n));
    hide Shuffle, Iterate, ToNat, OfNat, Exchanged;
    forall k | 0 <= k < n - 1
      ensures Exchanged(trace[k], trace[k + 1], n - 1 - k,
                        ToNat(Iterate(k + 1, OfNat(0x4d595df4d0f33173, 64))) % (n - k))
    {
      assert Exchanged(trace[k], trace[k + 1], n - 1 - k, GeneratorPicks(n)(n - 1 - k) % (n - 1 - k + 1));
      assert GeneratorPicks(n)(n - 1 - k) == ToNat(Iterate(k + 1, OfNat(RNG_SEED, 64)));
    }
  }

  /** The final token by position: as many places after token 0 as there were loads, around the circle. */
  lemma AfterIs(order: seq<nat>, zero: nat, loads: nat)
    requires IsPermutation(order) && zero < |order| && order[zero] == 0
    ensures 0 in order && After(order, loads) == order[(zero + loads) % |order|]
  {
    PositionUnique(order, zero);
  }

  /** One load at a time: the chase follows the links and nothing else. */
  lemma ChaseLoads(links: seq<nat>, token: nat, k: nat)
    requires InRange(links) && token < |links|
    ensures Chase(links, token, 0) == token
    ensures Chase(links, token, k + 1) == links[Chase(links, token, k)]
  {
  }
}
