/** Slot ownership as learned from heartbeats.  Every master keeps advertising
    one set of slots under one epoch; the messages are heard in any order and
    any number of times.  A slot ends up with the claimant of greatest epoch
    and, among claimants of equal greatest epoch, with the one heard first; a
    slot that is being imported stays where it is. */
module Convergence {
  import opened Basics
  import opened ClusterBus
  import opened SlotTable

  type Claims = map<Name, Claim>

  /** What every master advertises, as one node that has assigned no slot yet,
      but for the slots it is importing, receives it. */
  ghost predicate Starts(t: Table, importing: Owners, claims: Claims) {
    && |importing| == |t.slots|
    && (forall j | 0 <= j < |t.slots| :: importing[j].None? ==> t.slots[j].None?)
    && (forall n | n in claims ::
      && claims[n].sender == n && n != t.me && |claims[n].bits| == |t.slots|
      && n in t.epochs && t.epochs[n] <= claims[n].epoch)
  }

  ghost function HearAll(t: Table, importing: Owners, claims: Claims, heard: seq<Name>): (r: Table)
    requires Starts(t, importing, claims) && forall n | n in heard :: n in claims
    ensures |r.slots| == |t.slots| && r.me == t.me && r.epochs.Keys == t.epochs.Keys
  {
    if heard == [] then t else
      var last := heard[|heard| - 1];
      HearClaim(HearAll(t, importing, claims, heard[..|heard| - 1]), importing, claims[last])
  }

  ghost predicate Claimant(claims: Claims, n: Name, j: nat) {
    n in claims && j < |claims[n].bits| && claims[n].bits[j]
  }

  /** `n` claims slot j, no heard claimant has a greater epoch, and every
      claimant heard before `n` has a smaller one. */
  ghost predicate FirstGreatest(claims: Claims, heard: seq<Name>, j: nat, n: Name) {
    && n in heard && Claimant(claims, n, j)
    && (forall m | m in heard && Claimant(claims, m, j) :: claims[m].epoch <= claims[n].epoch)
    && exists i | 0 <= i < |heard| :: heard[i] == n && EarlierAreSmaller(claims, heard, j, n, i)
  }

  ghost predicate EarlierAreSmaller(claims: Claims, heard: seq<Name>, j: nat, n: Name, i: nat)
    requires i <= |heard| && n in claims
  {
    forall k | 0 <= k < i && Claimant(claims, heard[k], j) :: claims[heard[k]].epoch < claims[n].epoch
  }

  ghost predicate Owns(claims: Claims, heard: seq<Name>, j: nat, owner: Option<Name>) {
    if owner.Some? then FirstGreatest(claims, heard, j, owner.value)
    else forall m | m in heard :: !Claimant(claims, m, j)
  }

  lemma OwnerIsUnique(claims: Claims, heard: seq<Name>, j: nat, a: Option<Name>, b: Option<Name>)
    requires Owns(claims, heard, j, a) && Owns(claims, heard, j, b)
    ensures a == b
  {
    if a.Some? && b.Some? {
      var i :| 0 <= i < |heard| && heard[i] == a.value && EarlierAreSmaller(claims, heard, j, a.value, i);
      var k :| 0 <= k < |heard| && heard[k] == b.value && EarlierAreSmaller(claims, heard, j, b.value, k);
    }
  }

  /** One more claim: it wins exactly when its epoch beats the current owner's. */
  lemma OwnsNext(claims: Claims, heard: seq<Name>, last: Name, j: nat, owner: Option<Name>)
    requires Owns(claims, heard, j, owner)
    ensures Owns(claims, heard + [last], j,
      if Claimant(claims, last, j) && (owner.None? || claims[owner.value].epoch < claims[last].epoch)
      then Some(last) else owner)
  {
    var all := heard + [last];
    assert forall k | 0 <= k < |heard| :: all[k] == heard[k];
    if Claimant(claims, last, j) && (owner.None? || claims[owner.value].epoch < claims[last].epoch) {
      assert all[|heard|] == last && EarlierAreSmaller(claims, all, j, last, |heard|);
    } else if owner.Some? {
      var i :| 0 <= i < |heard| && heard[i] == owner.value && EarlierAreSmaller(claims, heard, j, owner.value, i);
      assert all[i] == owner.value && EarlierAreSmaller(claims, all, j, owner.value, i);
    }
  }

  /** Whatever was heard, in whatever order and however often: a slot that is
      being imported keeps its owner, every other one has the first of the greatest. */
  lemma {:induction false} OwnerIsFirstGreatest(t: Table, importing: Owners, claims: Claims, heard: seq<Name>)
    requires Starts(t, importing, claims) && forall n | n in heard :: n in claims
    ensures forall n | n in heard :: HearAll(t, importing, claims, heard).epochs[n] == claims[n].epoch
    ensures forall n | n in claims :: HearAll(t, importing, claims, heard).epochs[n] <= claims[n].epoch
    ensures forall j | 0 <= j < |t.slots| && importing[j].Some? ::
      HearAll(t, importing, claims, heard).slots[j] == t.slots[j]
    ensures forall j | 0 <= j < |t.slots| && importing[j].None? ::
      Owns(claims, heard, j, HearAll(t, importing, claims, heard).slots[j])
  {
    if heard != [] {
      var init, last := heard[..|heard| - 1], heard[|heard| - 1];
      assert heard == init + [last];
      OwnerIsFirstGreatest(t, importing, claims, init);
      var before, after := HearAll(t, importing, claims, init), HearAll(t, importing, claims, heard);
      forall j | 0 <= j < |t.slots|
        ensures importing[j].Some? ==> after.slots[j] == t.slots[j]
        ensures importing[j].None? ==> Owns(claims, heard, j, after.slots[j])
      {
        HeardSlot(before, importing, claims[last], j);
        if importing[j].None? {
          OwnsNext(claims, init, last, j, before.slots[j]);
        }
      }
    }
  }

  /** What hearing a claim does to one slot; skipping an unchanged claim makes no difference. */
  lemma HeardSlot(t: Table, importing: Owners, c: Claim, j: nat)
    requires j < |t.slots| == |importing| == |c.bits| && c.sender in t.epochs && c.sender != t.me
    requires t.epochs[c.sender] <= c.epoch
    ensures HearClaim(t, importing, c).slots[j] ==
      if importing[j].None? && c.bits[j] &&
        (t.slots[j].Some? && t.slots[j].value in t.epochs && t.slots[j] != Some(c.sender) ==>
          t.epochs[t.slots[j].value] < c.epoch)
      then Some(c.sender) else t.slots[j]
  {
    assert BitsOf(t.slots, c.sender)[j] <==> t.slots[j] == Some(c.sender);
  }

  ghost predicate DistinctEpochs(claims: Claims) {
    forall m, n | m in claims && n in claims && claims[m].epoch == claims[n].epoch :: m == n
  }

  /** Once every master was heard, each slot belongs to its claimant of greatest
      epoch, and slots nobody claims stay unassigned. */
  lemma ClaimsConverge(t: Table, importing: Owners, claims: Claims, heard: seq<Name>, j: nat)
    requires Starts(t, importing, claims) && DistinctEpochs(claims) && j < |t.slots| && importing[j].None?
    requires forall n :: n in heard <==> n in claims
    ensures var owner := HearAll(t, importing, claims, heard).slots[j];
      && (owner.None? <==> forall n | n in claims :: !claims[n].bits[j])
      && (owner.Some? ==> Claimant(claims, owner.value, j))
      && (owner.Some? ==>
        forall n | Claimant(claims, n, j) && n != owner.value :: claims[n].epoch < claims[owner.value].epoch)
  {
    OwnerIsFirstGreatest(t, importing, claims, heard);
    var owner := HearAll(t, importing, claims, heard).slots[j];
    assert Owns(claims, heard, j, owner);
    if owner.None? {
      forall n | n in claims ensures !claims[n].bits[j] {
        assert n in heard && !Claimant(claims, n, j);
      }
    }
  }

  /** No two claimants of slot j share the greatest epoch among its claimants. */
  ghost predicate ClearWinner(claims: Claims, j: nat) {
    forall m, n | Claimant(claims, m, j) && Claimant(claims, n, j) && m != n && claims[m].epoch == claims[n].epoch ::
      exists k :: Claimant(claims, k, j) && claims[n].epoch < claims[k].epoch
  }

  ghost predicate Complete(claims: Claims, heard: seq<Name>) {
    forall n :: n in heard <==> n in claims
  }

  /** Slot j converges: every complete order of hearing ends with the same owner. */
  ghost predicate Converges(t: Table, importing: Owners, claims: Claims, j: nat)
    requires Starts(t, importing, claims) && j < |t.slots| && importing[j].None?
  {
    forall a, b | Complete(claims, a) && Complete(claims, b) ::
      HearAll(t, importing, claims, a).slots[j] == HearAll(t, importing, claims, b).slots[j]
  }

  lemma {:induction false} Enumerate(s: set<Name>) returns (q: seq<Name>)
    ensures forall n :: n in q <==> n in s
    decreases |s|
  {
    q := [];
    if s != {} {
      var n :| n in s;
      q := Enumerate(s - {n});
      q := q + [n];
    }
  }

  /** Distinct epochs are more than is needed: a slot converges exactly when the
      greatest epoch among its claimants is held by one of them only. */
  lemma ConvergesExactlyWithClearWinner(t: Table, importing: Owners, claims: Claims, j: nat)
    requires Starts(t, importing, claims) && j < |t.slots| && importing[j].None?
    ensures Converges(t, importing, claims, j) <==> ClearWinner(claims, j)
  {
    hide HearAll;
    if ClearWinner(claims, j) {
      forall a, b | Complete(claims, a) && Complete(claims, b)
        ensures HearAll(t, importing, claims, a).slots[j] == HearAll(t, importing, claims, b).slots[j]
      {
        ClearOrders(t, importing, claims, j, a, b);
      }
    }
    if Converges(t, importing, claims, j) {
      forall m, n | Claimant(claims, m, j) && Claimant(claims, n, j) && m != n && claims[m].epoch == claims[n].epoch
        ensures exists k :: Claimant(claims, k, j) && claims[n].epoch < claims[k].epoch
      {
        var rest := Enumerate(claims.Keys);
        TiedOrders(t, importing, claims, j, m, n, rest);
      }
    }
  }

  lemma ClearOrders(t: Table, importing: Owners, claims: Claims, j: nat, a: seq<Name>, b: seq<Name>)
    requires Starts(t, importing, claims) && j < |t.slots| && importing[j].None? && ClearWinner(claims, j)
    requires Complete(claims, a) && Complete(claims, b)
    ensures HearAll(t, importing, claims, a).slots[j] == HearAll(t, importing, claims, b).slots[j]
  {
    hide HearAll;
    hide ClearWinner;
    OwnerIsFirstGreatest(t, importing, claims, a);
    OwnerIsFirstGreatest(t, importing, claims, b);
    ClearOwner(claims, a, b, j, HearAll(t, importing, claims, a).slots[j], HearAll(t, importing, claims, b).slots[j]);
  }

  lemma TiedOrders(t: Table, importing: Owners, claims: Claims, j: nat, m: Name, n: Name, rest: seq<Name>)
    requires Starts(t, importing, claims) && j < |t.slots| && importing[j].None? && Converges(t, importing, claims, j)
    requires Claimant(claims, m, j) && Claimant(claims, n, j) && m != n && claims[m].epoch == claims[n].epoch
    requires Complete(claims, rest)
    ensures exists k :: Claimant(claims, k, j) && claims[n].epoch < claims[k].epoch
  {
    hide HearAll;
    hide Owns;
    var a, b := [m] + rest, [n] + rest;
    assert Complete(claims, a) && Complete(claims, b);
    OwnerIsFirstGreatest(t, importing, claims, a);
    OwnerIsFirstGreatest(t, importing, claims, b);
    TiedOwner(claims, rest, j, m, n, HearAll(t, importing, claims, a).slots[j]);
  }

  lemma ClearOwner(claims: Claims, a: seq<Name>, b: seq<Name>, j: nat, x: Option<Name>, y: Option<Name>)
    requires ClearWinner(claims, j) && Complete(claims, a) && Complete(claims, b)
    requires Owns(claims, a, j, x) && Owns(claims, b, j, y)
    ensures x == y
  {
  }

  /** The claimant heard first keeps a slot against one of equal epoch. */
  lemma TiedOwner(claims: Claims, rest: seq<Name>, j: nat, m: Name, n: Name, x: Option<Name>)
    requires Claimant(claims, m, j) && Claimant(claims, n, j) && m != n && claims[m].epoch == claims[n].epoch
    requires Owns(claims, [m] + rest, j, x) && Owns(claims, [n] + rest, j, x)
    ensures exists k :: Claimant(claims, k, j) && claims[n].epoch < claims[k].epoch
  {
    var a, b := [m] + rest, [n] + rest;
    assert a[0] == m && b[0] == n;
    var i :| 0 <= i < |a| && a[i] == x.value && EarlierAreSmaller(claims, a, j, x.value, i);
    var k :| 0 <= k < |b| && b[k] == x.value && EarlierAreSmaller(claims, b, j, x.value, k);
    assert claims[n].epoch < claims[x.value].epoch;
  }

  /** Two masters claim one slot under one epoch: whoever is heard first keeps it. */
  lemma TieDependsOnOrder(epoch: nat)
    ensures var t := Table(0, [None], map[1 := 0, 2 := 0]);
      var claims := map[1 := Claim(1, epoch, [true]), 2 := Claim(2, epoch, [true])];
      && Starts(t, [None], claims) && !ClearWinner(claims, 0)
      && HearAll(t, [None], claims, [1, 2]).slots == [Some(1)] && HearAll(t, [None], claims, [2, 1]).slots == [Some(2)]
  {
    hide HearAll;
    var t := Table(0, [None], map[1 := 0, 2 := 0]);
    var claims := map[1 := Claim(1, epoch, [true]), 2 := Claim(2, epoch, [true])];
    assert Claimant(claims, 1, 0) && Claimant(claims, 2, 0);
    OwnerIsFirstGreatest(t, [None], claims, [1, 2]);
    OwnerIsFirstGreatest(t, [None], claims, [2, 1]);
    FirstKeeps(claims, 1, 2, HearAll(t, [None], claims, [1, 2]).slots[0]);
    FirstKeeps(claims, 2, 1, HearAll(t, [None], claims, [2, 1]).slots[0]);
  }

  lemma FirstKeeps(claims: Claims, m: Name, n: Name, owner: Option<Name>)
    requires Claimant(claims, m, 0) && Claimant(claims, n, 0) && m != n && claims[m].epoch == claims[n].epoch
    requires Owns(claims, [m, n], 0, owner)
    ensures owner == Some(m)
  {
    var heard := [m, n];
    assert heard[0] == m && EarlierAreSmaller(claims, heard, 0, m, 0);
    assert FirstGreatest(claims, heard, 0, m);
    OwnerIsUnique(claims, heard, 0, owner, Some(m));
  }
}
