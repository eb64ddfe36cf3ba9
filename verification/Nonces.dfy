/** The replay cache of accepted nonces. */
module Nonces {
  import opened Basics

  const CAPACITY: nat := 64
  const NONCE_BYTES: nat := 32

  type Nonce = seq<Byte>

  /** Comparison by accumulated differences, whatever the position of the first. */
  method EqualBytes(a: seq<Byte>, b: seq<Byte>) returns (same: bool)
    requires |a| == |b|
    ensures same <==> a == b
  {
    var different: nat := 0;
    for i := 0 to |a|
      invariant different == 0 <==> a[..i] == b[..i]
    {
      XorZero(a[i], b[i]);
      OrZero(different, Xor(a[i], b[i]));
      different := Or(different, Xor(a[i], b[i]));
      assert a[..i + 1] == a[..i] + [a[i]] && b[..i + 1] == b[..i] + [b[i]];
    }
    assert a[..|a|] == a && b[..|b|] == b;
    same := different == 0;
  }

  /** Bitwise operations, bit by bit from the lowest. */
  function Xor(a: nat, b: nat): nat {
    if a == 0 && b == 0 then 0 else (a % 2 + b % 2) % 2 + 2 * Xor(a / 2, b / 2)
  }

  function Or(a: nat, b: nat): nat {
    if a == 0 && b == 0 then 0 else (if a % 2 + b % 2 > 0 then 1 else 0) + 2 * Or(a / 2, b / 2)
  }

  lemma {:induction false} XorZero(a: nat, b: nat)
    ensures Xor(a, b) == 0 <==> a == b
  {
    if a > 0 || b > 0 { XorZero(a / 2, b / 2); }
  }

  lemma {:induction false} OrZero(a: nat, b: nat)
    ensures Or(a, b) == 0 <==> a == 0 && b == 0
  {
    if a > 0 || b > 0 { OrZero(a / 2, b / 2); }
  }

  method NonZero(nonce: seq<Byte>) returns (yes: bool)
    ensures yes <==> HasNonZero(nonce)
  {
    var any: nat := 0;
    for i := 0 to |nonce|
      invariant any == 0 <==> forall j | 0 <= j < i :: nonce[j] == 0
    {
      OrZero(any, nonce[i]);
      any := Or(any, nonce[i]);
    }
    yes := any != 0;
  }

  ghost predicate HasNonZero(nonce: seq<Byte>) { exists i | 0 <= i < |nonce| :: nonce[i] != 0 }

  /** The simple form of the cache: the last 64 of everything accepted. */
  function Recent(accepted: seq<Nonce>): seq<Nonce> {
    if |accepted| <= CAPACITY then accepted else accepted[|accepted| - CAPACITY..]
  }

  /** Two acceptances of one nonce have at least 64 others between them. */
  ghost predicate Spaced(accepted: seq<Nonce>) {
    forall i, j | 0 <= i < j < |accepted| && accepted[i] == accepted[j] :: j - i - 1 >= CAPACITY
  }

  lemma RecentDistinct(accepted: seq<Nonce>)
    requires Spaced(accepted)
    ensures forall i, j | 0 <= i < j < |Recent(accepted)| :: Recent(accepted)[i] != Recent(accepted)[j]
  {
  }

  lemma SpacedSnoc(accepted: seq<Nonce>, nonce: Nonce)
    requires Spaced(accepted) && nonce !in Recent(accepted)
    ensures Spaced(accepted + [nonce])
  {
    forall i: nat | |accepted| - |Recent(accepted)| <= i < |accepted| ensures accepted[i] != nonce {
      InRecent(accepted, i);
    }
  }

  /** Every recent nonce lies in the slot its acceptance number points to. */
  ghost predicate Mirrors(slots: seq<Nonce>, accepted: seq<Nonce>) {
    |slots| == CAPACITY && forall i | |accepted| - |Recent(accepted)| <= i < |accepted| ::
      slots[i % CAPACITY] == accepted[i]
  }

  lemma MirrorsNext(slots: seq<Nonce>, accepted: seq<Nonce>, nonce: Nonce)
    requires Mirrors(slots, accepted)
    ensures Mirrors(slots[|accepted| % CAPACITY := nonce], accepted + [nonce])
  {
    var n, more := |accepted|, accepted + [nonce];
    forall i: nat | |more| - |Recent(more)| <= i < n ensures slots[n % CAPACITY := nonce][i % CAPACITY] == more[i] {
      OtherSlot(i, n);
    }
  }

  lemma RecentFits(accepted: seq<Nonce>)
    ensures |Recent(accepted)| <= CAPACITY && |Recent(accepted)| <= |accepted|
  {
  }

  lemma NotInSlots(slots: seq<Nonce>, accepted: seq<Nonce>, nonce: Nonce)
    requires Mirrors(slots, accepted) && forall k | 0 <= k < |Recent(accepted)| :: slots[k] != nonce
    ensures nonce !in Recent(accepted)
  {
    var n, c := |accepted|, |Recent(accepted)|;
    forall k | 0 <= k < c ensures Recent(accepted)[k] != nonce {
      var i: nat := n - c + k;
      SlotInUse(i, n);
      var s := i % CAPACITY;
      assert Recent(accepted)[k] == accepted[i] == slots[s];
    }
  }

  lemma SlotInUse(i: nat, n: nat)
    requires i < n
    ensures i % CAPACITY < CAPACITY && (n < CAPACITY ==> i % CAPACITY == i)
  {
  }

  class NonceRing {
    const slots: array<Nonce>
    var count: nat
    var next: nat
    ghost var accepted: seq<Nonce>

    constructor ()
      ensures Valid() && accepted == [] && fresh(slots)
    {
      slots := new Nonce[CAPACITY](_ => []);
      count, next, accepted := 0, 0, [];
    }

    ghost predicate Valid() reads this, slots {
      && slots.Length == CAPACITY
      && count == |Recent(accepted)| && next == |accepted| % CAPACITY
      && Mirrors(slots[..], accepted) && Spaced(accepted)
    }

    /** The search through the filled slots finds exactly the recent nonces. */
    method Seen(nonce: Nonce) returns (seen: bool)
      requires Valid() && forall i | 0 <= i < |accepted| :: |accepted[i]| == |nonce|
      ensures seen <==> nonce in Recent(accepted)
    {
      hide Spaced, Mirrors, Recent;
      RecentFits(accepted);
      var index := 0;
      while index < count
        invariant index <= count
        invariant forall k | 0 <= k < index :: slots[k] != nonce
      {
        SlotHolds(index);
        var same := EqualBytes(slots[index], nonce);
        if same {
          InRecent(accepted, Stored(index));
          return true;
        }
        index := index + 1;
      }
      NotInSlots(slots[..], accepted, nonce);
      seen := false;
    }

    /** Accept a nonce that is not among the last 64 accepted; the slots hold exactly those. */
    method RememberOnce(nonce: Nonce) returns (ok: bool)
      requires Valid() && forall i | 0 <= i < |accepted| :: |accepted[i]| == |nonce|
      modifies this, slots
      ensures Valid()
      ensures ok <==> nonce !in Recent(old(accepted))
      ensures accepted == if ok then old(accepted) + [nonce] else old(accepted)
    {
      hide Spaced, Mirrors, Recent;
      var seen := Seen(nonce);
      if seen { return false; }
      ghost var n := |accepted|;
      RecentNext(accepted, nonce);
      SpacedSnoc(accepted, nonce);
      MirrorsNext(slots[..], accepted, nonce);
      ghost var was := slots[..];
      slots[next] := nonce;
      assert slots[..] == was[next := nonce];
      next := (next + 1) % CAPACITY;
      if count < CAPACITY { count := count + 1; }
      accepted := accepted + [nonce];
      NextSlot(n);
      ok := true;
    }

    /** Which acceptance a filled slot belongs to. */
    ghost function Stored(index: nat): (i: nat)
      requires index < count && count == |Recent(accepted)|
      reads this
      ensures |accepted| - count <= i < |accepted| && i % CAPACITY == index
    {
      var n := |accepted|;
      if n <= CAPACITY then index
      else
        var base := n - n % CAPACITY;
        if index < n % CAPACITY then base + index else base - CAPACITY + index
    }

    lemma SlotHolds(index: nat)
      requires Valid() && index < count
      ensures slots[index] == accepted[Stored(index)]
    {
    }
  }

  lemma InRecent(accepted: seq<Nonce>, i: nat)
    requires |accepted| - |Recent(accepted)| <= i < |accepted|
    ensures accepted[i] in Recent(accepted)
  {
    assert Recent(accepted)[i - (|accepted| - |Recent(accepted)|)] == accepted[i];
  }

  lemma RecentNext(accepted: seq<Nonce>, nonce: Nonce)
    ensures |Recent(accepted + [nonce])| == |Recent(accepted)| + if |Recent(accepted)| < CAPACITY then 1 else 0
  {
  }

  lemma NextSlot(n: nat)
    ensures (n % CAPACITY + 1) % CAPACITY == (n + 1) % CAPACITY
  {
  }

  lemma OtherSlot(i: nat, n: nat)
    requires i < n < i + CAPACITY
    ensures i % CAPACITY != n % CAPACITY
  {
  }
}
