/** The slot tables of one cluster node: the slot -> node table, a slot bitmap
    and a slot counter per known node, and the handlers that update them in
    place.  `Agree` says that the three describe the same assignment; it is the
    class invariant of `ClusterState`, so the assertion in clusterDelSlot holds
    in every reachable state.  The number of slots is the length of the tables. */
module SlotTable {
  import opened Basics
  import opened ClusterBus

  datatype Entry = Entry(configEpoch: nat, master: bool, slaveof: Option<Name>, bits: seq<bool>, numslots: int)

  type Entries = map<Name, Entry>
  type Owners = seq<Option<Name>>

  function CountBits(bits: seq<bool>): nat {
    if bits == [] then 0 else CountBits(bits[..|bits| - 1]) + if bits[|bits| - 1] then 1 else 0
  }

  ghost predicate EntryAgrees(n: Name, e: Entry, slots: Owners) {
    && |e.bits| == |slots|
    && e.numslots == CountBits(e.bits)
    && forall j | 0 <= j < |slots| :: e.bits[j] <==> slots[j] == Some(n)
  }

  /** Slot j maps to node n exactly when bit j of n is set, n counts its set
      bits, and only known nodes own slots. */
  ghost predicate Agree(nodes: Entries, slots: Owners) {
    && (forall n | n in nodes :: EntryAgrees(n, nodes[n], slots))
    && (forall j | 0 <= j < |slots| && slots[j].Some? :: slots[j].value in nodes)
  }

  /** Nothing but bitmaps and counters differs. */
  ghost predicate SameRoles(a: Entries, b: Entries) {
    && (forall n | n in b :: n in a)
    && (forall n | n in a :: n in b && SameRole(a[n], b[n]))
  }

  ghost predicate SameRole(a: Entry, b: Entry) {
    a.configEpoch == b.configEpoch && a.master == b.master && a.slaveof == b.slaveof
  }

  lemma UpdateKeepsRoles(nodes: Entries, n: Name, e: Entry)
    requires n in nodes && SameRole(e, nodes[n])
    ensures SameRoles(nodes[n := e], nodes)
  {
  }

  lemma RolesKnown(a: Entries, b: Entries, me: Name)
    requires SameRoles(a, b) && me in a
    ensures a.Keys == b.Keys && a[me].master == b[me].master
  {
  }

  lemma RolesReflexive(a: Entries)
    ensures SameRoles(a, a)
  {
  }

  lemma RolesCompose(a: Entries, b: Entries, c: Entries)
    requires SameRoles(a, b) && SameRoles(b, c)
    ensures SameRoles(a, c)
  {
  }

  lemma {:induction false} CountUpdate(bits: seq<bool>, j: nat, b: bool)
    requires j < |bits|
    ensures CountBits(bits[j := b]) == CountBits(bits) - (if bits[j] then 1 else 0) + (if b then 1 else 0)
  {
    var c := bits[j := b];
    if j == |bits| - 1 {
      assert c[..|c| - 1] == bits[..|bits| - 1];
    } else {
      CountUpdate(bits[..|bits| - 1], j, b);
      assert c[..|c| - 1] == bits[..|bits| - 1][j := b];
    }
  }

  lemma {:induction false} CountZero(bits: seq<bool>)
    ensures CountBits(bits) == 0 <==> forall j | 0 <= j < |bits| :: !bits[j]
  {
    if bits != [] {
      CountZero(bits[..|bits| - 1]);
      assert forall j | 0 <= j < |bits| - 1 :: bits[..|bits| - 1][j] == bits[j];
    }
  }

  /** clusterNodeSetSlotBit and clusterNodeClearSlotBit. */
  function SetBit(e: Entry, j: nat): Entry
    requires j < |e.bits|
  {
    e.(bits := e.bits[j := true], numslots := if e.bits[j] then e.numslots else e.numslots + 1)
  }

  function ClearBit(e: Entry, j: nat): Entry
    requires j < |e.bits|
  {
    e.(bits := e.bits[j := false], numslots := if e.bits[j] then e.numslots - 1 else e.numslots)
  }

  /** What a slot's new owner means to its owner and to everybody else. */
  lemma OwnAgrees(n: Name, e: Entry, slots: Owners, j: nat)
    requires EntryAgrees(n, e, slots) && j < |slots| && slots[j].None?
    ensures j < |e.bits| && EntryAgrees(n, SetBit(e, j), slots[j := Some(n)])
  {
    hide CountBits;
    CountUpdate(e.bits, j, true);
  }

  lemma LostAgrees(n: Name, e: Entry, slots: Owners, j: nat)
    requires EntryAgrees(n, e, slots) && j < |slots| && slots[j] == Some(n)
    ensures j < |e.bits| && e.bits[j] && e.numslots > 0 && EntryAgrees(n, ClearBit(e, j), slots[j := None])
  {
    hide CountBits;
    CountUpdate(e.bits, j, false);
    CountZero(e.bits);
  }

  lemma OtherAgrees(m: Name, e: Entry, slots: Owners, j: nat, owner: Option<Name>)
    requires EntryAgrees(m, e, slots) && j < |slots| && slots[j] != Some(m) && owner != Some(m)
    ensures EntryAgrees(m, e, slots[j := owner])
  {
    hide CountBits;
  }

  lemma AddAgrees(nodes: Entries, slots: Owners, n: Name, j: nat)
    requires Agree(nodes, slots) && n in nodes && j < |slots| && slots[j].None?
    ensures j < |nodes[n].bits| && Agree(nodes[n := SetBit(nodes[n], j)], slots[j := Some(n)])
  {
    hide EntryAgrees, SetBit;
    OwnAgrees(n, nodes[n], slots, j);
    forall m | m in nodes && m != n
      ensures EntryAgrees(m, nodes[m], slots[j := Some(n)])
    {
      OtherAgrees(m, nodes[m], slots, j, Some(n));
    }
  }

  lemma DelAgrees(nodes: Entries, slots: Owners, j: nat)
    requires Agree(nodes, slots) && j < |slots| && slots[j].Some?
    ensures var n := slots[j].value;
      && n in nodes && j < |nodes[n].bits| && nodes[n].bits[j] && nodes[n].numslots > 0
      && Agree(nodes[n := ClearBit(nodes[n], j)], slots[j := None])
  {
    hide EntryAgrees, ClearBit;
    var n := slots[j].value;
    LostAgrees(n, nodes[n], slots, j);
    forall m | m in nodes && m != n
      ensures EntryAgrees(m, nodes[m], slots[j := None])
    {
      OtherAgrees(m, nodes[m], slots, j, None);
    }
  }

  lemma ForgetAgrees(nodes: Entries, slots: Owners, n: Name)
    requires Agree(nodes, slots) && forall j | 0 <= j < |slots| :: slots[j] != Some(n)
    ensures Agree(nodes - {n}, slots)
  {
    forall m | m in nodes - {n}
      ensures EntryAgrees(m, (nodes - {n})[m], slots)
    {
      assert EntryAgrees(m, nodes[m], slots);
    }
  }

  /** The bitmap of a node is the slot table seen from that node. */
  lemma BitsOfNode(nodes: Entries, slots: Owners, n: Name)
    requires Agree(nodes, slots) && n in nodes
    ensures |nodes[n].bits| == |slots| && nodes[n].numslots == CountBits(nodes[n].bits)
    ensures forall j | 0 <= j < |slots| :: nodes[n].bits[j] <==> slots[j] == Some(n)
  {
    assert EntryAgrees(n, nodes[n], slots);
  }

  /** A node owns no slot exactly when its counter is zero. */
  lemma NoSlots(nodes: Entries, slots: Owners, n: Name)
    requires Agree(nodes, slots) && n in nodes
    ensures nodes[n].numslots == 0 <==> forall j | 0 <= j < |slots| :: slots[j] != Some(n)
  {
    assert EntryAgrees(n, nodes[n], slots);
    CountZero(nodes[n].bits);
  }

  // ----- what the handlers do to the slot table ------------------------------------

  /** The slots a master advertises, with the epoch it advertises them under. */
  datatype Claim = Claim(sender: Name, epoch: nat, bits: seq<bool>)

  /** What clusterUpdateSlotsConfigWith leads to: the claim is about ourselves;
      we stay, and delete the keys of the slots we lost; we become a replica of
      the claimer; or the assertion that a new replica owns no slot fails. */
  datatype Outcome = Discarded | Kept(dirty: seq<nat>) | Demoted | Crashed

  function EpochMap(nodes: Entries): map<Name, nat> {
    map n | n in nodes :: nodes[n].configEpoch
  }

  /** A claimed slot moves to the claimer unless it is being imported or is
      held under an epoch that is not smaller. */
  predicate Rebinds(slots: Owners, importing: Owners, c: Claim, epochs: map<Name, nat>, j: nat)
    requires j < |slots| == |importing| == |c.bits|
  {
    && c.bits[j] && slots[j] != Some(c.sender) && importing[j].None?
    && (slots[j].Some? && slots[j].value in epochs ==> epochs[slots[j].value] < c.epoch)
  }

  /** The slot table once the first `upto` slots of a claim are handled. */
  function Rebound(slots: Owners, importing: Owners, c: Claim, epochs: map<Name, nat>, upto: nat): (r: Owners)
    requires |slots| == |importing| == |c.bits|
    ensures |r| == |slots|
    ensures forall j | 0 <= j < |slots| ::
      r[j] == if j < upto && Rebinds(slots, importing, c, epochs, j) then Some(c.sender) else slots[j]
  {
    seq(|slots|, j requires 0 <= j < |slots| =>
      if j < upto && Rebinds(slots, importing, c, epochs, j) then Some(c.sender) else slots[j])
  }

  lemma ReboundNext(slots: Owners, importing: Owners, c: Claim, epochs: map<Name, nat>, upto: nat)
    requires upto < |slots| == |importing| == |c.bits|
    ensures Rebound(slots, importing, c, epochs, 0) == slots
    ensures Rebound(slots, importing, c, epochs, upto)[upto] == slots[upto]
    ensures Rebound(slots, importing, c, epochs, upto + 1) ==
            if Rebinds(slots, importing, c, epochs, upto)
            then Rebound(slots, importing, c, epochs, upto)[upto := Some(c.sender)]
            else Rebound(slots, importing, c, epochs, upto)
  {
  }

  /** The claim takes one of the first `upto` slots from `owner`. */
  predicate Takes(slots: Owners, importing: Owners, c: Claim, epochs: map<Name, nat>, owner: Name, upto: nat)
    requires |slots| == |importing| == |c.bits|
  {
    exists j | 0 <= j < upto && j < |slots| :: slots[j] == Some(owner) && Rebinds(slots, importing, c, epochs, j)
  }

  lemma TakesNext(slots: Owners, importing: Owners, c: Claim, epochs: map<Name, nat>, owner: Name, upto: nat)
    requires upto < |slots| == |importing| == |c.bits|
    ensures Takes(slots, importing, c, epochs, owner, upto + 1) <==>
            Takes(slots, importing, c, epochs, owner, upto) ||
            (slots[upto] == Some(owner) && Rebinds(slots, importing, c, epochs, upto))
  {
  }

  /** The slots among the first `upto` that `me` loses while holding keys of them. */
  function Dirty(slots: Owners, importing: Owners, c: Claim, epochs: map<Name, nat>, me: Name, keys: seq<nat>,
      upto: nat): seq<nat>
    requires upto <= |slots| == |importing| == |c.bits| == |keys|
  {
    if upto == 0 then [] else
      Dirty(slots, importing, c, epochs, me, keys, upto - 1) +
      if slots[upto - 1] == Some(me) && keys[upto - 1] != 0 && Rebinds(slots, importing, c, epochs, upto - 1)
      then [upto - 1] else []
  }

  lemma {:induction false} DirtyExactly(slots: Owners, importing: Owners, c: Claim, epochs: map<Name, nat>, me: Name,
      keys: seq<nat>, upto: nat, j: nat)
    requires upto <= |slots| == |importing| == |c.bits| == |keys|
    ensures j in Dirty(slots, importing, c, epochs, me, keys, upto) <==>
            j < upto && slots[j] == Some(me) && keys[j] != 0 && Rebinds(slots, importing, c, epochs, j)
  {
    if upto > 0 {
      DirtyExactly(slots, importing, c, epochs, me, keys, upto - 1, j);
    }
  }

  /** Nobody holds the slot, or a node with a smaller epoch does. */
  predicate Weaker(nodes: Entries, owner: Option<Name>, epoch: nat) {
    owner.None? || (owner.value in nodes && nodes[owner.value].configEpoch < epoch)
  }

  /** The nodes with `me` turned into a replica of `master`. */
  function Following(nodes: Entries, me: Name, master: Name): Entries
    requires me in nodes
  {
    nodes[me := nodes[me].(master := false, slaveof := Some(master))]
  }

  function Promoted(nodes: Entries, me: Name): Entries
    requires me in nodes
  {
    nodes[me := nodes[me].(master := true, slaveof := None)]
  }

  lemma FollowingRoles(a: Entries, b: Entries, me: Name, master: Name)
    requires SameRoles(a, b) && me in a && me in b
    ensures SameRoles(Following(a, me, master), Following(b, me, master))
  {
  }

  /** A claim seen slot by slot: the owner changes exactly if the slot is claimed,
      not being imported, and held under a smaller epoch or by nobody. */
  lemma ReboundPlainly(nodes: Entries, slots: Owners, importing: Owners, c: Claim)
    requires Agree(nodes, slots) && |slots| == |importing| == |c.bits|
    ensures var r := Rebound(slots, importing, c, EpochMap(nodes), |slots|);
      forall j | 0 <= j < |slots| ::
        r[j] == if c.bits[j] && importing[j].None? && Weaker(nodes, slots[j], c.epoch) then Some(c.sender) else slots[j]
  {
    hide Rebound, EntryAgrees;
  }

  /** The same the other way round, for a table that was changed slot by slot. */
  lemma PlainlyRebound(nodes: Entries, slots: Owners, importing: Owners, c: Claim, after: Owners)
    requires Agree(nodes, slots) && |after| == |slots| == |importing| == |c.bits|
    requires forall j | 0 <= j < |slots| ::
      after[j] == if c.bits[j] && importing[j].None? && Weaker(nodes, slots[j], c.epoch) then Some(c.sender)
        else slots[j]
    ensures after == Rebound(slots, importing, c, EpochMap(nodes), |slots|)
  {
    hide Agree, Rebound, EpochMap, Weaker;
    ReboundPlainly(nodes, slots, importing, c);
  }

  lemma TakenIsLost(slots: Owners, importing: Owners, c: Claim, epochs: map<Name, nat>, owner: Name)
    requires |slots| == |importing| == |c.bits|
    ensures var r := Rebound(slots, importing, c, epochs, |slots|);
      Takes(slots, importing, c, epochs, owner, |slots|) <==>
      exists j | 0 <= j < |slots| :: slots[j] == Some(owner) != r[j]
  {
    hide Rebound;
  }

  lemma DirtyIsLost(slots: Owners, importing: Owners, c: Claim, epochs: map<Name, nat>, me: Name, keys: seq<nat>)
    requires |slots| == |importing| == |c.bits| == |keys|
    ensures var r := Rebound(slots, importing, c, epochs, |slots|);
      forall j :: j in Dirty(slots, importing, c, epochs, me, keys, |slots|) <==>
        0 <= j < |slots| && slots[j] == Some(me) != r[j] && keys[j] != 0
  {
    hide Rebound, Dirty;
    forall j: nat {
      DirtyExactly(slots, importing, c, epochs, me, keys, |slots|, j);
    }
  }

  predicate SameButEpoch(a: Entry, b: Entry) { a == b.(configEpoch := a.configEpoch) }

  function Raised(epochs: map<Name, nat>, n: Name, epoch: nat): map<Name, nat> {
    if n in epochs && epochs[n] < epoch then epochs[n := epoch] else epochs
  }

  lemma EpochKeys(nodes: Entries)
    ensures EpochMap(nodes).Keys == nodes.Keys
  {
  }

  lemma EpochRaised(nodes: Entries, n: Name, epoch: nat)
    requires n in nodes
    ensures EpochMap(if nodes[n].configEpoch < epoch then nodes[n := nodes[n].(configEpoch := epoch)] else nodes) ==
      Raised(EpochMap(nodes), n, epoch)
  {
  }

  /** What a node knows about slot ownership: the slot table, and an epoch per known node. */
  datatype Table = Table(me: Name, slots: Owners, epochs: map<Name, nat>)

  function BitsOf(slots: Owners, n: Name): (r: seq<bool>)
    ensures |r| == |slots|
  {
    seq(|slots|, j requires 0 <= j < |slots| => slots[j] == Some(n))
  }

  /** A PING or PONG of a master: its epoch is raised first, and the claim is
      looked at only when its slots are not the ones already known. */
  function HearClaim(t: Table, importing: Owners, c: Claim): (r: Table)
    requires |t.slots| == |importing| == |c.bits|
    ensures |r.slots| == |t.slots| && r.me == t.me && r.epochs.Keys == t.epochs.Keys
    ensures forall j | 0 <= j < |t.slots| && importing[j].Some? :: r.slots[j] == t.slots[j]
  {
    if c.sender !in t.epochs then t else
      var epochs := Raised(t.epochs, c.sender, c.epoch);
      if c.sender == t.me || c.bits == BitsOf(t.slots, c.sender) then t.(epochs := epochs)
      else t.(slots := Rebound(t.slots, importing, c, epochs, |t.slots|), epochs := epochs)
  }

  lemma BitsAre(nodes: Entries, slots: Owners, n: Name)
    requires Agree(nodes, slots) && n in nodes
    ensures nodes[n].bits == BitsOf(slots, n)
  {
    BitsOfNode(nodes, slots, n);
  }

  lemma UnheardClaim(t: Table, importing: Owners, c: Claim)
    requires |t.slots| == |importing| == |c.bits| && c.sender !in t.epochs
    ensures HearClaim(t, importing, c) == t
  {
  }

  lemma SameClaim(t: Table, importing: Owners, c: Claim)
    requires |t.slots| == |importing| == |c.bits| && c.sender in t.epochs
    requires c.sender == t.me || c.bits == BitsOf(t.slots, c.sender)
    ensures HearClaim(t, importing, c) == t.(epochs := Raised(t.epochs, c.sender, c.epoch))
  {
  }

  lemma NewClaim(t: Table, importing: Owners, c: Claim)
    requires |t.slots| == |importing| == |c.bits| && c.sender in t.epochs
    requires c.sender != t.me && c.bits != BitsOf(t.slots, c.sender)
    ensures var epochs := Raised(t.epochs, c.sender, c.epoch);
      HearClaim(t, importing, c) == Table(t.me, Rebound(t.slots, importing, c, epochs, |t.slots|), epochs)
  {
    hide Rebound;
  }

  /** Every slot of `from` among the first `upto` goes to `to`. */
  function Moved(slots: Owners, from: Name, to: Option<Name>, upto: nat): (r: Owners)
    ensures |r| == |slots|
    ensures forall j | 0 <= j < |slots| :: r[j] == if j < upto && slots[j] == Some(from) then to else slots[j]
  {
    seq(|slots|, j requires 0 <= j < |slots| => if j < upto && slots[j] == Some(from) then to else slots[j])
  }

  lemma MovedNext(slots: Owners, from: Name, to: Option<Name>, upto: nat)
    requires upto < |slots|
    ensures Moved(slots, from, to, 0) == slots
    ensures Moved(slots, from, to, upto)[upto] == slots[upto]
    ensures Moved(slots, from, to, upto + 1) ==
            if slots[upto] == Some(from) then Moved(slots, from, to, upto)[upto := to] else Moved(slots, from, to, upto)
  {
  }

  lemma NoneLeft(nodes: Entries, slots: Owners, before: Owners, n: Name, to: Option<Name>)
    requires Agree(nodes, slots) && n in nodes && to != Some(n)
    requires slots == Moved(before, n, to, |before|)
    ensures nodes[n].numslots == 0
    ensures forall j | 0 <= j < |slots| :: slots[j] != Some(n)
  {
    NoSlots(nodes, slots, n);
  }

  function Unclaimed(epoch: nat, size: nat): Entry {
    Entry(epoch, true, None, seq(size, _ => false), 0)
  }

  lemma NewAgrees(nodes: Entries, slots: Owners, n: Name, epoch: nat)
    requires Agree(nodes, slots) && n !in nodes
    ensures Agree(nodes[n := Unclaimed(epoch, |slots|)], slots)
  {
    CountZero(Unclaimed(epoch, |slots|).bits);
  }

  class ClusterState {
    var myself: Name
    var nodes: Entries
    var slots: Owners
    var importing: Owners
    var migrating: Owners

    ghost predicate Valid()
      reads this
    {
      && |slots| == |importing| == |migrating|
      && myself in nodes
      && (nodes[myself].slaveof.Some? ==> nodes[myself].slaveof.value in nodes && nodes[myself].slaveof.value != myself)
      && (nodes[myself].master <==> nodes[myself].slaveof.None?)
      && Agree(nodes, slots)
    }

    /** A fresh node: it knows only itself and no slot is assigned. */
    constructor (name: Name, size: nat)
      ensures Valid() && myself == name && nodes.Keys == {name}
      ensures slots == importing == migrating == seq(size, _ => None)
    {
      myself := name;
      var bits := seq(size, _ => false);
      nodes := map[name := Entry(0, true, None, bits, 0)];
      slots := seq(size, _ => None);
      importing := seq(size, _ => None);
      migrating := seq(size, _ => None);
      CountZero(bits);
    }

    /** clusterAddSlot: fails when the slot is busy. */
    method AddSlot(n: Name, slot: nat) returns (ok: bool)
      requires Valid() && n in nodes && slot < |slots|
      modifies this`nodes, this`slots
      ensures Valid() && SameRoles(nodes, old(nodes))
      ensures ok == old(slots)[slot].None?
      ensures slots == if ok then old(slots)[slot := Some(n)] else old(slots)
    {
      hide Agree;
      if slots[slot].Some? {
        return false;
      }
      AddAgrees(nodes, slots, n, slot);
      UpdateKeepsRoles(nodes, n, SetBit(nodes[n], slot));
      nodes := nodes[n := SetBit(nodes[n], slot)];
      slots := slots[slot := Some(n)];
      return true;
    }

    /** clusterDelSlot, with the assertion it makes. */
    method DelSlot(slot: nat) returns (ok: bool)
      requires Valid() && slot < |slots|
      modifies this`nodes, this`slots
      ensures Valid() && SameRoles(nodes, old(nodes))
      ensures ok == old(slots)[slot].Some?
      ensures slots == old(slots)[slot := None]
      ensures forall n | n in old(nodes) && n in nodes ::
        nodes[n].numslots == old(nodes)[n].numslots - if old(slots)[slot] == Some(n) then 1 else 0
    {
      hide Agree;
      if slots[slot].None? {
        return false;
      }
      var n := slots[slot].value;
      DelAgrees(nodes, slots, slot);
      UpdateKeepsRoles(nodes, n, ClearBit(nodes[n], slot));
      assert nodes[n].bits[slot];  // serverAssert(clusterNodeClearSlotBit(n,slot) == 1)
      nodes := nodes[n := ClearBit(nodes[n], slot)];
      slots := slots[slot := None];
      return true;
    }

    /** clusterAddNode, of a node that claims nothing yet. */
    method AddNode(n: Name, epoch: nat)
      requires Valid() && n !in nodes
      modifies this`nodes
      ensures Valid() && nodes == old(nodes)[n := Unclaimed(epoch, |slots|)]
      ensures nodes[n].configEpoch == epoch && nodes[n].master && nodes[n].slaveof.None? && nodes[n].numslots == 0
    {
      NewAgrees(nodes, slots, n, epoch);
      nodes := nodes[n := Unclaimed(epoch, |slots|)];
    }

    /** clusterDelNodeSlots: the number of deleted slots is returned. */
    method DelNodeSlots(n: Name) returns (deleted: nat)
      requires Valid() && n in nodes
      modifies this`nodes, this`slots
      ensures Valid() && SameRoles(nodes, old(nodes))
      ensures slots == Moved(old(slots), n, None, |slots|)
      ensures n in nodes && nodes[n].numslots == 0 && deleted == old(nodes[n].numslots)
    {
      hide Agree;
      hide Moved;
      ghost var before := slots;
      deleted := 0;
      RolesReflexive(nodes);
      for j := 0 to |slots|
        invariant Valid() && n in nodes && SameRoles(nodes, old(nodes)) && |slots| == |before|
        invariant slots == Moved(before, n, None, j)
        invariant deleted + nodes[n].numslots == old(nodes[n].numslots)
      {
        MovedNext(before, n, None, j);
        BitsOfNode(nodes, slots, n);
        if nodes[n].bits[j] {
          ghost var nodes' := nodes;
          var _ := DelSlot(j);
          RolesCompose(nodes, nodes', old(nodes));
          deleted := deleted + 1;
        }
      }
      NoneLeft(nodes, slots, before, n, None);
    }

    /** The slots of a node, and the moves that involve it, are dropped. */
    method DropSlots(n: Name)
      requires Valid() && n in nodes
      modifies this`nodes, this`slots, this`importing, this`migrating
      ensures Valid() && SameRoles(nodes, old(nodes)) && |slots| == old(|slots|)
      ensures slots == Moved(old(slots), n, None, |slots|)
      ensures importing == Moved(old(importing), n, None, |slots|)
      ensures migrating == Moved(old(migrating), n, None, |slots|)
    {
      hide Agree, Moved;
      ghost var before, imp, mig := slots, importing, migrating;
      RolesReflexive(nodes);
      for j := 0 to |slots|
        invariant Valid() && SameRoles(nodes, old(nodes)) && |slots| == |before|
        invariant slots == Moved(before, n, None, j)
        invariant importing == Moved(imp, n, None, j)
        invariant migrating == Moved(mig, n, None, j)
      {
        MovedNext(before, n, None, j);
        MovedNext(imp, n, None, j);
        MovedNext(mig, n, None, j);
        if importing[j] == Some(n) {
          importing := importing[j := None];
        }
        if migrating[j] == Some(n) {
          migrating := migrating[j := None];
        }
        if slots[j] == Some(n) {
          ghost var nodes' := nodes;
          var _ := DelSlot(j);
          RolesCompose(nodes, nodes', old(nodes));
        }
      }
    }

    /** clusterDelNode and freeClusterNode: forget another node that is not our master. */
    method DelNode(n: Name)
      requires Valid() && n in nodes && n != myself && nodes[myself].slaveof != Some(n)
      modifies this`nodes, this`slots, this`importing, this`migrating
      ensures Valid()
      ensures slots == Moved(old(slots), n, None, |slots|)
      ensures importing == Moved(old(importing), n, None, |slots|)
      ensures migrating == Moved(old(migrating), n, None, |slots|)
      ensures nodes.Keys == old(nodes.Keys) - {n}
      ensures forall m | m in nodes ::
        && nodes[m].configEpoch == old(nodes)[m].configEpoch && nodes[m].master == old(nodes)[m].master
        && nodes[m].slaveof == if old(nodes)[m].slaveof == Some(n) then None else old(nodes)[m].slaveof
    {
      hide Agree, Moved;
      ghost var before := slots;
      DropSlots(n);
      NoneLeft(nodes, slots, before, n, None);
      ForgetAgrees(nodes, slots, n);
      ghost var kept := nodes - {n};
      nodes := map m | m in nodes && m != n :: Orphaned(nodes[m], n);
      OrphanedAgrees(kept, nodes, slots, n);
    }

    /** clusterSetMaster. */
    method SetMaster(n: Name)
      requires Valid() && n in nodes && n != myself && nodes[myself].numslots == 0
      modifies this`nodes, this`importing, this`migrating
      ensures Valid()
      ensures nodes == old(nodes)[myself := old(nodes)[myself].(master := false, slaveof := Some(n))]
      ensures old(nodes)[myself].master ==> importing == migrating == seq(|slots|, _ => None)
      ensures !old(nodes)[myself].master ==> importing == old(importing) && migrating == old(migrating)
    {
      hide Agree;
      if nodes[myself].master {
        importing := seq(|slots|, _ => None);
        migrating := seq(|slots|, _ => None);
      }
      RoleAgrees(nodes, slots, myself, nodes[myself].(master := false, slaveof := Some(n)));
      nodes := nodes[myself := nodes[myself].(master := false, slaveof := Some(n))];
    }

    /** The node that owns what we serve: ourselves, or our master. */
    function CurrentMaster(): Name
      requires Valid()
      reads this
    {
      if nodes[myself].master then myself else nodes[myself].slaveof.value
    }

    /** The loop over the claimed slots. */
    method RebindSlots(c: Claim, keys: seq<nat>) returns (newmaster: bool, dirty: seq<nat>)
      requires Valid() && c.sender in nodes && |c.bits| == |keys| == |slots|
      modifies this`nodes, this`slots
      ensures Valid() && SameRoles(nodes, old(nodes)) && nodes[myself].master == old(nodes[myself].master)
      ensures EpochMap(nodes) == EpochMap(old(nodes)) && nodes.Keys == old(nodes.Keys)
      ensures slots == Rebound(old(slots), importing, c, EpochMap(old(nodes)), |slots|)
      ensures newmaster == Takes(old(slots), importing, c, EpochMap(old(nodes)), old(CurrentMaster()), |slots|)
      ensures dirty == Dirty(old(slots), importing, c, EpochMap(old(nodes)), myself, keys, |slots|)
    {
      hide Agree, Rebound, Takes, Dirty, EpochMap, SameRoles;
      var curmaster := CurrentMaster();
      ghost var before, epochs := slots, EpochMap(nodes);
      newmaster, dirty := false, [];
      RolesReflexive(nodes);
      TakesNothing(before, importing, c, epochs, curmaster, keys);
      for j := 0 to |slots|
        invariant Valid() && SameRoles(nodes, old(nodes)) && |slots| == |before|
        invariant slots == Rebound(before, importing, c, epochs, j)
        invariant newmaster == Takes(before, importing, c, epochs, curmaster, j)
        invariant dirty == Dirty(before, importing, c, epochs, myself, keys, j)
      {
        ReboundNext(before, importing, c, epochs, j);
        TakesNext(before, importing, c, epochs, curmaster, j);
        DirtyNext(before, importing, c, epochs, myself, keys, j);
        OwnerEpoch(nodes, old(nodes), slots, j);
        if c.bits[j] && slots[j] != Some(c.sender) && importing[j].None? &&
           (slots[j].None? || nodes[slots[j].value].configEpoch < c.epoch) {
          if slots[j] == Some(myself) && keys[j] != 0 {
            dirty := dirty + [j];
          }
          if slots[j] == Some(curmaster) {
            newmaster := true;
          }
          ghost var nodes' := nodes;
          var _ := DelSlot(j);
          RolesCompose(nodes, nodes', old(nodes));
          nodes' := nodes;
          var _ := AddSlot(c.sender, j);
          RolesCompose(nodes, nodes', old(nodes));
        }
      }
      EpochsKept(nodes, old(nodes));
      RolesKnown(nodes, old(nodes), myself);
    }

    /** clusterUpdateSlotsConfigWith. */
    method UpdateSlotsConfigWith(c: Claim, keys: seq<nat>, noRedirection: bool) returns (out: Outcome)
      requires Valid() && c.sender in nodes && |c.bits| == |keys| == |slots|
      modifies this`nodes, this`slots, this`importing, this`migrating
      ensures out != Crashed ==> Valid()
      ensures |slots| == old(|slots|) && EpochMap(nodes) == EpochMap(old(nodes))
      ensures out.Discarded? <==> c.sender == myself
      ensures out.Discarded? ==> slots == old(slots) && nodes == old(nodes)
      ensures forall j | 0 <= j < |slots| ::
        slots[j] ==
          if c.sender != myself && c.bits[j] && old(importing)[j].None? && Weaker(old(nodes), old(slots)[j], c.epoch)
          then Some(c.sender) else old(slots)[j]
      ensures forall j | 0 <= j < |slots| && old(importing)[j].Some? :: slots[j] == old(slots)[j]
      ensures out.Demoted? || out.Crashed? <==>
        && c.sender != myself && !noRedirection
        && (exists j | 0 <= j < |slots| :: old(slots)[j] == Some(old(CurrentMaster())) != slots[j])
        && (forall j | 0 <= j < |slots| :: slots[j] != Some(old(CurrentMaster())))
      ensures out.Demoted? || out.Crashed? ==>
        (out.Crashed? <==> exists j | 0 <= j < |slots| :: slots[j] == Some(myself))
      ensures out.Demoted? ==> SameRoles(nodes, Following(old(nodes), myself, c.sender))
      ensures out.Demoted? ==> !nodes[myself].master && nodes[myself].slaveof == Some(c.sender)
      ensures out.Demoted? && old(nodes[myself].master) ==> importing == migrating == seq(|slots|, _ => None)
      ensures out.Kept? ==> SameRoles(nodes, old(nodes))
      ensures out.Kept? || (out.Demoted? && !old(nodes[myself].master)) ==>
        importing == old(importing) && migrating == old(migrating)
      ensures out.Kept? ==> forall j :: j in out.dirty <==>
        0 <= j < |slots| && !noRedirection && old(slots)[j] == Some(myself) != slots[j] && keys[j] != 0
    {
      hide Agree, Rebound, Takes, Dirty, EpochMap, SameRoles, Weaker;
      var curmaster := CurrentMaster();
      if c.sender == myself {
        return Discarded;
      }
      ghost var before, epochs := slots, EpochMap(nodes);
      ReboundPlainly(nodes, slots, importing, c);
      var newmaster, dirty := RebindSlots(c, keys);
      if noRedirection {
        return Kept([]);
      }
      NoSlots(nodes, slots, curmaster);
      NoSlots(nodes, slots, myself);
      TakenIsLost(before, importing, c, epochs, curmaster);
      DirtyIsLost(before, importing, c, epochs, myself, keys);
      if newmaster && nodes[curmaster].numslots == 0 {
        if nodes[myself].numslots != 0 {
          return Crashed;  // serverAssert(myself->numslots == 0)
        }
        EpochSet(nodes, myself, nodes[myself].(master := false, slaveof := Some(c.sender)));
        FollowingRoles(nodes, old(nodes), myself, c.sender);
        SetMaster(c.sender);
        return Demoted;
      }
      return Kept(dirty);
    }

    ghost function Known(): Table
      reads this
    {
      Table(myself, slots, EpochMap(nodes))
    }

    /** The slot part of processing a PING or PONG whose sender is a known master. */
    method ReceiveClaim(c: Claim, keys: seq<nat>, noRedirection: bool) returns (out: Outcome)
      requires Valid() && |c.bits| == |keys| == |slots|
      requires c.sender in nodes ==> nodes[c.sender].master
      modifies this`nodes, this`slots, this`importing, this`migrating
      ensures out != Crashed ==> Valid() && Known() == HearClaim(old(Known()), old(importing), c)
      ensures |slots| == old(|slots|)
      ensures forall j | 0 <= j < |slots| && old(importing)[j].Some? :: slots[j] == old(slots)[j]
      ensures out == Crashed ==>
        (exists j | 0 <= j < |slots| :: old(slots)[j] == Some(old(CurrentMaster())) != slots[j]) &&
        (exists j | 0 <= j < |slots| :: slots[j] == Some(myself))
    {
      hide Agree, SameRoles, Weaker, Rebound, EpochMap, HearClaim, BitsOf;
      ghost var before := nodes;
      EpochKeys(nodes);
      if c.sender !in nodes {
        UnheardClaim(Known(), importing, c);
        return Kept([]);
      }
      RaiseEpoch(c.sender, c.epoch);
      ghost var raised := nodes;
      EpochKeys(raised);
      BitsAre(nodes, slots, c.sender);
      if nodes[c.sender].bits == c.bits {
        SameClaim(old(Known()), importing, c);
        return Kept([]);
      }
      out := UpdateSlotsConfigWith(c, keys, noRedirection);
      if c.sender == myself {
        SameClaim(old(Known()), old(importing), c);
      } else {
        PlainlyRebound(raised, old(slots), old(importing), c, slots);
        NewClaim(old(Known()), old(importing), c);
      }
    }

    method RaiseEpoch(n: Name, epoch: nat)
      requires Valid() && n in nodes
      modifies this`nodes
      ensures Valid() && n in nodes && nodes.Keys == old(nodes).Keys
      ensures SameButEpoch(nodes[n], old(nodes[n])) && nodes[myself].master == old(nodes[myself].master)
      ensures nodes[myself].slaveof == old(nodes[myself].slaveof)
      ensures EpochMap(nodes) == Raised(EpochMap(old(nodes)), n, epoch)
      ensures nodes[n].configEpoch == Max(old(nodes[n]).configEpoch, epoch)
      ensures forall m | m in nodes && m != n :: nodes[m] == old(nodes)[m]
    {
      hide Agree, EpochMap;
      EpochKeys(nodes);
      EpochRaised(nodes, n, epoch);
      if nodes[n].configEpoch < epoch {
        RoleAgrees(nodes, slots, n, nodes[n].(configEpoch := epoch));
        nodes := nodes[n := nodes[n].(configEpoch := epoch)];
      }
    }

    /** clusterFailoverReplaceYourMaster. */
    method ReplaceYourMaster()
      requires Valid()
      modifies this`nodes, this`slots
      ensures Valid()
      ensures old(nodes)[myself].master ==> nodes == old(nodes) && slots == old(slots)
      ensures !old(nodes)[myself].master ==>
        && nodes[myself].master && nodes[myself].slaveof.None?
        && SameRoles(nodes, Promoted(old(nodes), myself))
        && |slots| == old(|slots|)
        && (forall j | 0 <= j < |slots| ::
            slots[j] == if old(slots)[j] == Some(old(CurrentMaster())) then Some(myself) else old(slots)[j])
        && old(CurrentMaster()) in nodes && nodes[old(CurrentMaster())].numslots == 0
    {
      hide Agree;
      hide Moved;
      if nodes[myself].master {
        return;
      }
      var oldmaster := nodes[myself].slaveof.value;
      RoleAgrees(nodes, slots, myself, nodes[myself].(master := true, slaveof := None));
      nodes := nodes[myself := nodes[myself].(master := true, slaveof := None)];
      ghost var before, start := slots, nodes;
      RolesReflexive(nodes);
      for j := 0 to |slots|
        invariant Valid() && SameRoles(nodes, start) && |slots| == |before|
        invariant slots == Moved(before, oldmaster, Some(myself), j)
      {
        MovedNext(before, oldmaster, Some(myself), j);
        BitsOfNode(nodes, slots, oldmaster);
        if nodes[oldmaster].bits[j] {
          ghost var nodes' := nodes;
          var _ := DelSlot(j);
          RolesCompose(nodes, nodes', start);
          nodes' := nodes;
          var _ := AddSlot(myself, j);
          RolesCompose(nodes, nodes', start);
        }
      }
      NoneLeft(nodes, slots, before, oldmaster, Some(myself));
    }

    /** clusterReset; a hard reset also renames the node and forgets its epoch. */
    method Reset(hard: bool, name: Name)
      requires Valid()
      modifies this
      ensures Valid()
      ensures myself == if hard then name else old(myself)
      ensures nodes.Keys == {myself} && nodes[myself].master
      ensures nodes[myself].configEpoch == if hard then 0 else old(nodes[myself].configEpoch)
      ensures slots == importing == migrating == seq(old(|slots|), _ => None)
    {
      hide Agree;
      hide Moved;
      var size := |slots|;
      if !nodes[myself].master {
        RoleAgrees(nodes, slots, myself, nodes[myself].(master := true, slaveof := None));
        nodes := nodes[myself := nodes[myself].(master := true, slaveof := None)];
      }
      importing := seq(|slots|, _ => None);
      migrating := seq(|slots|, _ => None);
      ghost var none := importing;
      ghost var self := nodes[myself];
      for j := 0 to |slots|
        invariant Valid() && |slots| == size && SameRole(nodes[myself], self)
        invariant myself == old(myself) && importing == migrating == none
        invariant forall k | 0 <= k < j :: slots[k].None?
      {
        var _ := DelSlot(j);
      }
      assert slots == none;
      MovedNowhere(none);
      while exists n :: n in nodes && n != myself
        invariant Valid() && SameRole(nodes[myself], self)
        invariant myself == old(myself) && slots == importing == migrating == none
        decreases |nodes|
      {
        var n :| n in nodes && n != myself;
        ghost var keys := nodes.Keys;
        DelNode(n);
        Shrinks(keys, nodes.Keys, n);
      }
      if hard {
        RenamedAgrees(nodes, slots, myself, name);
        nodes := map[name := nodes[myself].(configEpoch := 0)];
        myself := name;
      }
    }

    /** The slot check of clusterSendFailoverAuthIfNeeded: no claimed slot is
        held under an epoch greater than the one in the request. */
    method ClaimsAreCurrent(claimed: seq<bool>, requestEpoch: nat) returns (ok: bool)
      requires Valid() && |claimed| == |slots|
      ensures ok <==> forall j | 0 <= j < |slots| && claimed[j] && slots[j].Some? ::
        slots[j].value in nodes && nodes[slots[j].value].configEpoch <= requestEpoch
    {
      for j := 0 to |slots|
        invariant forall k | 0 <= k < j && claimed[k] && slots[k].Some? ::
          slots[k].value in nodes && nodes[slots[k].value].configEpoch <= requestEpoch
      {
        if !claimed[j] {
          continue;
        }
        if slots[j].None? || nodes[slots[j].value].configEpoch <= requestEpoch {
          continue;
        }
        return false;
      }
      return true;
    }

    /** CLUSTER ADDSLOTS and DELSLOTS; an argument that is not a slot number is
        None.  The whole list is checked before the first slot is touched. */
    method ChangeSlots(del: bool, args: seq<Option<nat>>) returns (ok: bool)
      requires Valid()
      modifies this`nodes, this`slots, this`importing
      ensures Valid() && SameRoles(nodes, old(nodes)) && |slots| == old(|slots|)
      ensures ok <==> Acceptable(del, args, old(slots))
      ensures !ok ==> nodes == old(nodes) && slots == old(slots) && importing == old(importing)
      ensures ok ==> forall j | 0 <= j < |slots| ::
        && slots[j] == (if Some(j) in args then (if del then None else Some(myself)) else old(slots)[j])
        && importing[j] == (if Some(j) in args then None else old(importing)[j])
    {
      hide Agree;
      var seen := seq(|slots|, _ => false);
      for i := 0 to |args|
        invariant |seen| == |slots|
        invariant forall j | 0 <= j < |seen| :: seen[j] <==> Some(j) in args[..i]
        invariant Acceptable(del, args[..i], slots)
      {
        assert args[..i + 1] == args[..i] + [args[i]];
        if args[i].None? || args[i].value >= |slots| {
          NotAcceptable(del, args, slots, i);
          return false;
        }
        var slot := args[i].value;
        if (del && slots[slot].None?) || (!del && slots[slot].Some?) || seen[slot] {
          NotAcceptable(del, args, slots, i);
          return false;
        }
        seen := seen[slot := true];
      }
      assert args[..|args|] == args;
      ApplySlots(del, seen);
      return true;
    }

    /** The second pass of the command, over the slots that were marked. */
    method ApplySlots(del: bool, marked: seq<bool>)
      requires Valid() && |marked| == |slots|
      requires forall j | 0 <= j < |slots| && marked[j] :: slots[j].Some? <==> del
      modifies this`nodes, this`slots, this`importing
      ensures Valid() && SameRoles(nodes, old(nodes)) && |slots| == old(|slots|)
      ensures forall j | 0 <= j < |slots| ::
        && slots[j] == (if marked[j] then (if del then None else Some(myself)) else old(slots)[j])
        && importing[j] == (if marked[j] then None else old(importing)[j])
    {
      hide Agree;
      RolesReflexive(nodes);
      ghost var before, imp := slots, importing;
      for j := 0 to |slots|
        invariant Valid() && SameRoles(nodes, old(nodes)) && |slots| == |before|
        invariant forall k | 0 <= k < j ::
          && slots[k] == (if marked[k] then (if del then None else Some(myself)) else before[k])
          && importing[k] == (if marked[k] then None else imp[k])
        invariant forall k | j <= k < |slots| :: slots[k] == before[k] && importing[k] == imp[k]
      {
        if marked[j] {
          importing := importing[j := None];
          ghost var nodes' := nodes;
          var done;
          if del {
            done := DelSlot(j);
          } else {
            done := AddSlot(myself, j);
          }
          assert done;  // serverAssertWithInfo(c,NULL,retval == C_OK)
          RolesCompose(nodes, nodes', old(nodes));
        }
      }
    }

    /** CLUSTER SETSLOT NODE; `bumps` says that an import ends here, so that the
        node takes a new config epoch. */
    method SetSlotNode(slot: nat, n: Name, keys: nat) returns (ok: bool, bumps: bool)
      requires Valid() && slot < |slots|
      modifies this`nodes, this`slots, this`importing, this`migrating
      ensures Valid() && SameRoles(nodes, old(nodes))
      ensures ok <==>
        old(nodes)[myself].master && n in old(nodes) && (old(slots)[slot] == Some(myself) && n != myself ==> keys == 0)
      ensures slots == if ok then old(slots)[slot := Some(n)] else old(slots)
      ensures migrating == if ok && keys == 0 then old(migrating)[slot := None] else old(migrating)
      ensures importing == if ok && n == myself then old(importing)[slot := None] else old(importing)
      ensures bumps <==> ok && n == myself && old(importing)[slot].Some?
    {
      hide Agree;
      RolesReflexive(nodes);
      bumps := false;
      if !nodes[myself].master || n !in nodes {
        return false, false;
      }
      if slots[slot] == Some(myself) && n != myself && keys != 0 {
        return false, false;
      }
      if keys == 0 && migrating[slot].Some? {
        migrating := migrating[slot := None];
      }
      if n == myself && importing[slot].Some? {
        bumps := true;
        importing := importing[slot := None];
      }
      var _ := DelSlot(slot);
      ghost var nodes' := nodes;
      var _ := AddSlot(n, slot);
      RolesCompose(nodes, nodes', old(nodes));
      return true, bumps;
    }
  }

  /** Every argument is a slot that can be added or deleted, and none comes twice. */
  ghost predicate Acceptable(del: bool, args: seq<Option<nat>>, slots: Owners) {
    && (forall i | 0 <= i < |args| :: args[i].Some? && args[i].value < |slots| && (del <==> slots[args[i].value].Some?))
    && forall i, k | 0 <= i < k < |args| :: args[i] != args[k]
  }

  lemma NotAcceptable(del: bool, args: seq<Option<nat>>, slots: Owners, i: nat)
    requires i < |args|
    requires args[i].Some? && args[i].value < |slots| && (del <==> slots[args[i].value].Some?) ==> args[i] in args[..i]
    ensures !Acceptable(del, args, slots)
  {
  }

  lemma MovedNowhere(none: Owners)
    requires forall j | 0 <= j < |none| :: none[j].None?
    ensures forall n, to :: Moved(none, n, to, |none|) == none
  {
  }

  lemma Shrinks(a: set<Name>, b: set<Name>, n: Name)
    requires n in a && b == a - {n}
    ensures |b| < |a|
  {
  }

  /** A node that knows only itself and owns nothing may change its name. */
  lemma RenamedAgrees(nodes: Entries, slots: Owners, me: Name, name: Name)
    requires Agree(nodes, slots) && me in nodes && forall j | 0 <= j < |slots| :: slots[j].None?
    ensures Agree(map[name := nodes[me].(configEpoch := 0)], slots)
  {
    assert EntryAgrees(me, nodes[me], slots);
  }

  lemma EpochsKept(a: Entries, b: Entries)
    requires SameRoles(a, b)
    ensures EpochMap(a) == EpochMap(b)
  {
  }

  lemma EpochSet(nodes: Entries, n: Name, e: Entry)
    requires n in nodes
    ensures EpochMap(nodes[n := e]) == EpochMap(nodes)[n := e.configEpoch]
    ensures e.configEpoch == nodes[n].configEpoch ==> EpochMap(nodes[n := e]) == EpochMap(nodes)
  {
  }

  lemma TakesNothing(slots: Owners, importing: Owners, c: Claim, epochs: map<Name, nat>, owner: Name, keys: seq<nat>)
    requires |slots| == |importing| == |c.bits| == |keys|
    ensures forall me :: Dirty(slots, importing, c, epochs, me, keys, 0) == []
    ensures !Takes(slots, importing, c, epochs, owner, 0)
    ensures Rebound(slots, importing, c, epochs, 0) == slots
  {
  }

  lemma DirtyNext(slots: Owners, importing: Owners, c: Claim, epochs: map<Name, nat>, me: Name, keys: seq<nat>,
      upto: nat)
    requires upto < |slots| == |importing| == |c.bits| == |keys|
    ensures Dirty(slots, importing, c, epochs, me, keys, upto + 1) ==
            if slots[upto] == Some(me) && keys[upto] != 0 && Rebinds(slots, importing, c, epochs, upto)
            then Dirty(slots, importing, c, epochs, me, keys, upto) + [upto]
            else Dirty(slots, importing, c, epochs, me, keys, upto)
  {
  }

  /** Slot moves do not change epochs, so the owner of a slot still has the epoch it started with. */
  lemma OwnerEpoch(nodes: Entries, start: Entries, slots: Owners, j: nat)
    requires Agree(nodes, slots) && SameRoles(nodes, start) && j < |slots|
    ensures slots[j].Some? ==>
      && slots[j].value in nodes && slots[j].value in EpochMap(start)
      && nodes[slots[j].value].configEpoch == EpochMap(start)[slots[j].value]
  {
  }

  lemma RoleAgrees(nodes: Entries, slots: Owners, n: Name, e: Entry)
    requires Agree(nodes, slots) && n in nodes && e.bits == nodes[n].bits && e.numslots == nodes[n].numslots
    ensures Agree(nodes[n := e], slots)
  {
    var nodes' := nodes[n := e];
    forall m | m in nodes'
      ensures EntryAgrees(m, nodes'[m], slots)
    {
      assert EntryAgrees(m, nodes[m], slots);
    }
  }

  /** A replica whose master is forgotten has no known master. */
  function Orphaned(e: Entry, n: Name): Entry {
    if e.slaveof == Some(n) then e.(slaveof := None) else e
  }

  lemma OrphanedAgrees(kept: Entries, nodes: Entries, slots: Owners, n: Name)
    requires Agree(kept, slots)
    requires forall m :: m in nodes <==> m in kept
    requires forall m | m in nodes :: nodes[m] == Orphaned(kept[m], n)
    ensures Agree(nodes, slots)
  {
    forall m | m in nodes
      ensures EntryAgrees(m, nodes[m], slots)
    {
      assert EntryAgrees(m, kept[m], slots);
    }
  }

  /** Node 1 replicates node 2, which has slot 0, and was given slot 1 with
      CLUSTER ADDSLOTS; it also knows node 3. */
  ghost predicate OddReplica(c: ClusterState)
    reads c
  {
    && c.Valid() && c.myself == 1 && c.nodes.Keys == {1, 2, 3} && c.slots == [Some(2), Some(1)]
    && c.importing == [None, None] && c.nodes[1].slaveof == Some(2) && c.nodes[2].configEpoch == 0
  }

  method MakeReplica() returns (c: ClusterState)
    ensures fresh(c) && c.Valid() && c.myself == 1 && c.nodes.Keys == {1, 2, 3} && c.slots == [Some(2), None]
    ensures c.importing == [None, None] && c.nodes[1].slaveof == Some(2) && c.nodes[2].configEpoch == 0
  {
    hide Agree;
    c := new ClusterState(1, 2);
    c.AddNode(2, 0);
    c.AddNode(3, 0);
    var given := c.AddSlot(2, 0);
    NoSlots(c.nodes, c.slots, 1);
    c.SetMaster(2);
  }

  method MakeOddReplica() returns (c: ClusterState)
    ensures fresh(c) && OddReplica(c)
  {
    hide Agree;
    c := MakeReplica();
    OneSlot();
    var added := c.ChangeSlots(false, [Some(1)]);
    assert added;
    assert Some(0) !in [Some(1)];
    assert c.slots == [Some(2), Some(1)] && c.importing == [None, None];
  }

  lemma OneSlot()
    ensures Acceptable(false, [Some(1)], [Some(2), None])
  {
  }

  /** A replica with a slot of its own dies when its master loses its last one. */
  method ReplicaWithSlotCrashes() returns (out: Outcome)
    ensures out == Crashed
  {
    hide Agree;
    var c := MakeOddReplica();
    LastSlotTaken(EpochMap(c.nodes));
    out := c.UpdateSlotsConfigWith(Claim(3, 1, [true, false]), [0, 0], false);
    assert c.slots == [Some(3), Some(1)];
    assert c.slots[1] == Some(1);
  }

  lemma LastSlotTaken(epochs: map<Name, nat>)
    requires 2 in epochs && epochs[2] == 0
    ensures var slots, none, c := [Some(2), Some(1)], [None, None], Claim(3, 1, [true, false]);
      Takes(slots, none, c, epochs, 2, 2) && Rebound(slots, none, c, epochs, 2) == [Some(3), Some(1)]
  {
    var slots: Owners, none: Owners, c := [Some(2), Some(1)], [None, None], Claim(3, 1, [true, false]);
    assert Rebinds(slots, none, c, epochs, 0) && !Rebinds(slots, none, c, epochs, 1);
  }
}
