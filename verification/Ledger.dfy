/** The JavaScript ledger: pending transactions, mining, balances and the chain
    check.  The hash, the signature check and the clock are parameters; amounts
    are reals. */
module Ledger {
  import opened Basics

  type Address = string

  /** A null address is None; an empty string is falsy too, but is an address. */
  datatype Tx = Tx(from: Option<Address>, to: Option<Address>, amount: real, signature: string)

  /** A difficulty; a block that was not mined here may have none, and adding to
      none gives none (undefined and NaN in the source). */
  datatype Level = Level(value: int) | NoLevel

  datatype Block = Block(
    index: nat,
    hash: string,
    previousHash: string,
    timestamp: int,
    transactions: seq<Tx>,
    nonce: nat,
    difficulty: Level)

  type Hash = (nat, string, int, seq<Tx>, nat) -> string

  /** What the surroundings decide: the hash, and whether a signature verifies. */
  datatype Crypto = Crypto(hash: Hash, verifies: Tx -> bool)

  datatype State = State(chain: seq<Block>, pending: seq<Tx>)

  const REWARD: real := 100.0

  const BIRTH: int := 1589453315955

  function Genesis(): Block { Block(0, "", "", BIRTH, [], 0, NoLevel) }

  function Start(): State { State([Genesis()], []) }

  // ----- transactions ------------------------------------------------------------------

  /** What a check comes to: it may also throw. */
  datatype Verdict = Holds | Fails | Throws

  /** isValid: a transaction without sender is always valid, one without signature throws. */
  function TxVerdict(c: Crypto, tx: Tx): Verdict {
    if tx.from.None? then Holds else if tx.signature == "" then Throws else if c.verifies(tx) then Holds else Fails
  }

  predicate TxValid(c: Crypto, tx: Tx) { TxVerdict(c, tx) == Holds }

  predicate Truthy(a: Option<Address>) { a.Some? && a.value != "" }

  /** addTransaction throws unless both addresses are given and the signature verifies. */
  predicate Accepts(c: Crypto, tx: Tx) { Truthy(tx.from) && Truthy(tx.to) && TxValid(c, tx) }

  function Coinbase(to: Option<Address>): Tx { Tx(None, to, REWARD, "signed by the miner") }

  // ----- blocks ------------------------------------------------------------------------------

  function Zeros(n: nat): string { seq(n, _ => '0') }

  predicate Matches(hash: string, difficulty: nat) { Zeros(difficulty) <= hash }

  function BlockHash(c: Crypto, b: Block, nonce: nat): string {
    c.hash(b.index, b.previousHash, b.timestamp, b.transactions, nonce)
  }

  /** The nonce mineBlock ends with: the least one whose hash matches. */
  ghost predicate Mined(c: Crypto, b: Block, difficulty: nat, nonce: nat) {
    && Matches(BlockHash(c, b, nonce), difficulty)
    && forall k | 0 <= k < nonce :: !Matches(BlockHash(c, b, k), difficulty)
  }

  function Candidate(s: State, to: Option<Address>, date: int): Block
    requires s.chain != []
  {
    var last := s.chain[|s.chain| - 1];
    Block(last.index + 1, "", last.hash, date, s.pending + [Coinbase(to)], 0, NoLevel)
  }

  const INTERVAL: nat := 10

  /** getAdjustedDifficulty */
  function Adjusted(latest: Block, prev: Block): Level {
    var taken := latest.timestamp - prev.timestamp;
    match prev.difficulty
    case NoLevel => NoLevel
    case Level(d) => Level(if taken < 50 then d + 1 else if taken > 200 then d - 1 else d)
  }

  /** getDifficulty; None when there is no block to adjust from. */
  function Difficulty(chain: seq<Block>): Option<Level>
    requires chain != []
  {
    var latest := chain[|chain| - 1];
    if latest.index % INTERVAL == 0 && latest.index > INTERVAL then
      if |chain| < INTERVAL then None else Some(Adjusted(latest, chain[|chain| - INTERVAL]))
    else if latest.difficulty.Level? && latest.difficulty.value != 0 then Some(latest.difficulty) else Some(Level(1))
  }

  /** How many zeros a hash must start with; without a difficulty, none. */
  function Required(d: Level): nat {
    if d.Level? && d.value > 0 then d.value else 0
  }

  /** A mining call throws, after it has queued its reward, exactly when this is
      false: a string cannot be repeated a negative number of times. */
  predicate Mineable(chain: seq<Block>) {
    chain != [] && Difficulty(chain).Some? && (Difficulty(chain).value.Level? ==> Difficulty(chain).value.value >= 0)
  }

  /** addTransaction, a mining call that succeeds, one that throws, and the
      adoption of a chain from another node that is not shorter. */
  datatype Event =
    | Add(tx: Tx)
    | Mine(to: Option<Address>, date: int, nonce: nat)
    | MineThrows(to: Option<Address>)
    | Adopt(chain: seq<Block>)

  ghost predicate Enabled(c: Crypto, s: State, e: Event) {
    match e
    case Add(_) => true
    case Mine(to, date, nonce) => Mineable(s.chain) &&
      Mined(c, Candidate(s, to, date), Required(Difficulty(s.chain).value), nonce)
    case MineThrows(_) => !Mineable(s.chain)
    case Adopt(chain) => |s.chain| <= |chain|
  }

  function Next(c: Crypto, s: State, e: Event): State
    requires e.Mine? ==> Mineable(s.chain)
  {
    match e
    case Add(tx) => if Accepts(c, tx) then s.(pending := s.pending + [tx]) else s
    case Mine(to, date, nonce) =>
      var b := Candidate(s, to, date);
      State(s.chain + [b.(hash := BlockHash(c, b, nonce), nonce := nonce, difficulty := Difficulty(s.chain).value)], [])
    case MineThrows(to) => s.(pending := s.pending + [Coinbase(to)])
    case Adopt(chain) => s.(chain := chain)
  }

  ghost predicate Run(c: Crypto, s: State, es: seq<Event>)
    decreases |es|
  {
    es == [] || (Enabled(c, s, es[0]) && Run(c, Next(c, s, es[0]), es[1..]))
  }

  ghost function Final(c: Crypto, s: State, es: seq<Event>): State
    requires Run(c, s, es)
    decreases |es|
  {
    if es == [] then s else Final(c, Next(c, s, es[0]), es[1..])
  }

  // ----- the chain check -------------------------------------------------------------------------

  predicate AllValid(c: Crypto, txs: seq<Tx>) { forall i | 0 <= i < |txs| :: TxValid(c, txs[i]) }

  predicate Linked(c: Crypto, previous: Block, b: Block) {
    AllValid(c, b.transactions) && b.hash == BlockHash(c, b, b.nonce) && b.previousHash == previous.hash
  }

  predicate ChainValid(c: Crypto, chain: seq<Block>) {
    forall i | 1 <= i < |chain| :: Linked(c, chain[i - 1], chain[i])
  }

  /** What every event keeps: a valid chain whose blocks are numbered and meet
      their difficulty, and valid pending transactions. */
  ghost predicate Inv(c: Crypto, s: State) {
    && s.chain != [] && s.chain[0] == Genesis()
    && ChainValid(c, s.chain) && AllValid(c, s.pending)
    && (forall i | 0 <= i < |s.chain| :: s.chain[i].index == i)
    && (forall i | 1 <= i < |s.chain| :: Matches(s.chain[i].hash, Required(s.chain[i].difficulty)))
  }

  ghost predicate NoAdoption(es: seq<Event>) {
    forall i | 0 <= i < |es| :: !es[i].Adopt?
  }

  lemma NextKeepsInv(c: Crypto, s: State, e: Event)
    requires Inv(c, s) && Enabled(c, s, e) && !e.Adopt?
    ensures Inv(c, Next(c, s, e))
  {
    var t := Next(c, s, e);
    if e.Mine? {
      var b := t.chain[|t.chain| - 1];
      assert Linked(c, s.chain[|s.chain| - 1], b);
      assert forall i | 0 <= i < |s.chain| :: t.chain[i] == s.chain[i];
    }
  }

  lemma {:induction false} RunKeepsInv(c: Crypto, s: State, es: seq<Event>)
    requires Inv(c, s) && Run(c, s, es) && NoAdoption(es)
    ensures Inv(c, Final(c, s, es))
    decreases |es|
  {
    if es != [] {
      NextKeepsInv(c, s, es[0]);
      RunKeepsInv(c, Next(c, s, es[0]), es[1..]);
    }
  }

  /** isChainValid holds after every run of additions and mining calls on a new ledger. */
  lemma ChainStaysValid(c: Crypto, es: seq<Event>)
    requires Run(c, Start(), es) && NoAdoption(es)
    ensures ChainValid(c, Final(c, Start(), es).chain) && ChainVerdict(c, Final(c, Start(), es).chain, 1) == Holds
  {
    RunKeepsInv(c, Start(), es);
    ChainVerdictExactly(c, Final(c, Start(), es).chain, 1);
  }

  /** hasValidTransactions: the first transaction that is not valid decides. */
  function TxsVerdict(c: Crypto, txs: seq<Tx>): Verdict {
    if txs == [] then Holds else if TxVerdict(c, txs[0]) != Holds then TxVerdict(c, txs[0]) else TxsVerdict(c, txs[1..])
  }

  /** isChainValid from block i on: the first block that is wrong decides. */
  function ChainVerdict(c: Crypto, chain: seq<Block>, i: nat): Verdict
    requires i >= 1
    decreases |chain| - i
  {
    if i >= |chain| then Holds
    else if TxsVerdict(c, chain[i].transactions) != Holds then TxsVerdict(c, chain[i].transactions)
    else if !Linked(c, chain[i - 1], chain[i]) then Fails
    else ChainVerdict(c, chain, i + 1)
  }

  lemma {:induction false} TxsVerdictExactly(c: Crypto, txs: seq<Tx>)
    ensures TxsVerdict(c, txs) == Holds <==> AllValid(c, txs)
  {
    if txs != [] {
      TxsVerdictExactly(c, txs[1..]);
      assert txs == [txs[0]] + txs[1..];
      if AllValid(c, txs) {
        assert TxValid(c, txs[0]);
      }
    }
  }

  /** The check accepts exactly the valid chains. */
  lemma {:induction false} ChainVerdictExactly(c: Crypto, chain: seq<Block>, i: nat)
    requires i >= 1
    ensures ChainVerdict(c, chain, i) == Holds <==> forall k | i <= k < |chain| :: Linked(c, chain[k - 1], chain[k])
    decreases |chain| - i
  {
    if i < |chain| {
      TxsVerdictExactly(c, chain[i].transactions);
      ChainVerdictExactly(c, chain, i + 1);
      if forall k | i <= k < |chain| :: Linked(c, chain[k - 1], chain[k]) {
        assert Linked(c, chain[i - 1], chain[i]);
      }
    }
  }

  // ----- balances ------------------------------------------------------------------------------------

  function Change(tx: Tx, a: Address): real {
    (if tx.to == Some(a) then tx.amount else 0.0) - (if tx.from == Some(a) then tx.amount else 0.0)
  }

  function TxsBalance(txs: seq<Tx>, a: Address): real {
    if txs == [] then 0.0 else TxsBalance(txs[..|txs| - 1], a) + Change(txs[|txs| - 1], a)
  }

  function Balance(chain: seq<Block>, a: Address): real {
    if chain == [] then 0.0 else Balance(chain[..|chain| - 1], a) + TxsBalance(chain[|chain| - 1].transactions, a)
  }

  /** Balances summed over a list of addresses. */
  function Total(chain: seq<Block>, addresses: seq<Address>): real {
    if addresses == [] then 0.0
      else Total(chain, addresses[..|addresses| - 1]) + Balance(chain, addresses[|addresses| - 1])
  }

  function TotalChange(txs: seq<Tx>, addresses: seq<Address>): real {
    if addresses == [] then 0.0
      else TotalChange(txs, addresses[..|addresses| - 1]) + TxsBalance(txs, addresses[|addresses| - 1])
  }

  function OneChange(tx: Tx, addresses: seq<Address>): real {
    if addresses == [] then 0.0
      else OneChange(tx, addresses[..|addresses| - 1]) + Change(tx, addresses[|addresses| - 1])
  }

  ghost predicate Lists(addresses: seq<Address>, tx: Tx) {
    && (forall i, j | 0 <= i < j < |addresses| :: addresses[i] != addresses[j])
    && (tx.from.Some? ==> tx.from.value in addresses) && (tx.to.Some? ==> tx.to.value in addresses)
  }

  /** How often an address is listed, as a factor. */
  function Share(a: Option<Address>, addresses: seq<Address>): real {
    if a.Some? && a.value in addresses then 1.0 else 0.0
  }

  lemma {:induction false} OneChangeIs(tx: Tx, addresses: seq<Address>)
    requires forall i, j | 0 <= i < j < |addresses| :: addresses[i] != addresses[j]
    ensures OneChange(tx, addresses) == tx.amount * Share(tx.to, addresses) - tx.amount * Share(tx.from, addresses)
  {
    if addresses != [] {
      var init, last := addresses[..|addresses| - 1], addresses[|addresses| - 1];
      OneChangeIs(tx, init);
      assert addresses == init + [last];
      assert last !in init;
    }
  }

  lemma {:induction false} TotalChangeNext(txs: seq<Tx>, tx: Tx, addresses: seq<Address>)
    ensures TotalChange(txs + [tx], addresses) == TotalChange(txs, addresses) + OneChange(tx, addresses)
  {
    if addresses != [] {
      TotalChangeNext(txs, tx, addresses[..|addresses| - 1]);
      assert (txs + [tx])[..|txs|] == txs;
    }
  }

  lemma {:induction false} TotalNext(chain: seq<Block>, b: Block, addresses: seq<Address>)
    ensures Total(chain + [b], addresses) == Total(chain, addresses) + TotalChange(b.transactions, addresses)
  {
    if addresses != [] {
      TotalNext(chain, b, addresses[..|addresses| - 1]);
      assert (chain + [b])[..|chain|] == chain;
    }
  }

  predicate IsReward(tx: Tx) { tx.from.None? && tx.to.Some? && tx.amount == REWARD }

  function Rewards(txs: seq<Tx>): nat {
    if txs == [] then 0 else Rewards(txs[..|txs| - 1]) + if IsReward(txs[|txs| - 1]) then 1 else 0
  }

  /** Every transaction is a transfer between addresses or a reward. */
  ghost predicate Orderly(txs: seq<Tx>, addresses: seq<Address>) {
    forall i | 0 <= i < |txs| ::
      Lists(addresses, txs[i]) && (txs[i].from.None? ==> txs[i].amount == REWARD) &&
        (txs[i].from.Some? ==> txs[i].to.Some?)
  }

  lemma {:induction false} OrderlyChange(txs: seq<Tx>, addresses: seq<Address>)
    requires Orderly(txs, addresses)
    ensures TotalChange(txs, addresses) == REWARD * Rewards(txs) as real
  {
    if txs == [] {
      NothingChanges(addresses);
    } else {
      var init, last := txs[..|txs| - 1], txs[|txs| - 1];
      OrderlyChange(init, addresses);
      assert txs == init + [last];
      assert Lists(addresses, last);
      TotalChangeNext(init, last, addresses);
      OneChangeIs(last, addresses);
    }
  }

  lemma {:induction false} NothingChanges(addresses: seq<Address>)
    ensures TotalChange([], addresses) == 0.0
  {
    if addresses != [] {
      NothingChanges(addresses[..|addresses| - 1]);
    }
  }

  // ----- conservation ---------------------------------------------------------------------------------

  /** What a run without adoptions pays out: the rewards of the successful calls
      and those queued before; `queued` are rewards waiting in the queue. */
  function Paid(es: seq<Event>, queued: nat): nat {
    if es == [] then 0 else
      match es[0]
      case Add(_) => Paid(es[1..], queued)
      case Mine(to, _, _) => queued + (if to.Some? then 1 else 0) + Paid(es[1..], 0)
      case MineThrows(to) => Paid(es[1..], queued + if to.Some? then 1 else 0)
      case Adopt(_) => Paid(es[1..], queued)
  }

  /** Only listed addresses take part. */
  ghost predicate Known(es: seq<Event>, addresses: seq<Address>) {
    && (forall i, j | 0 <= i < j < |addresses| :: addresses[i] != addresses[j])
    && forall i | 0 <= i < |es| ::
      match es[i]
      case Add(tx) => Lists(addresses, tx)
      case Mine(to, _, _) => to.Some? ==> to.value in addresses
      case MineThrows(to) => to.Some? ==> to.value in addresses
      case Adopt(_) => true
  }

  lemma {:induction false} RewardsNext(txs: seq<Tx>, tx: Tx)
    ensures Rewards(txs + [tx]) == Rewards(txs) + if IsReward(tx) then 1 else 0
  {
    assert (txs + [tx])[..|txs|] == txs;
  }

  lemma PendingNext(c: Crypto, s: State, e: Event, addresses: seq<Address>)
    requires Orderly(s.pending, addresses) && Known([e], addresses) && (e.Mine? ==> Mineable(s.chain))
    ensures Orderly(Next(c, s, e).pending, addresses)
    ensures !e.Mine? ==>
      Rewards(Next(c, s, e).pending) == Rewards(s.pending) + if e.MineThrows? && e.to.Some? then 1 else 0
  {
    assert match [e][0] case Add(tx) => Lists(addresses, tx) case _ => true;
    match e
    case Add(tx) => RewardsNext(s.pending, tx);
    case MineThrows(to) => RewardsNext(s.pending, Coinbase(to));
    case Mine(_, _, _) =>
    case Adopt(_) =>
  }

  lemma MineTotal(c: Crypto, s: State, e: Event, addresses: seq<Address>)
    requires e.Mine? && Mineable(s.chain) && Orderly(s.pending, addresses) && Known([e], addresses)
    ensures Rewards(Next(c, s, e).pending) == 0
    ensures Total(Next(c, s, e).chain, addresses) ==
            Total(s.chain, addresses) + REWARD * (Rewards(s.pending) + if e.to.Some? then 1 else 0) as real
  {
    var t, txs := Next(c, s, e), s.pending + [Coinbase(e.to)];
    assert [e][0] == e;
    assert Rewards(t.pending) == 0;
    assert Orderly(txs, addresses);
    hide Orderly, Total, Rewards;
    OrderlyChange(txs, addresses);
    RewardsNext(s.pending, Coinbase(e.to));
    TotalNext(s.chain, t.chain[|t.chain| - 1], addresses);
  }

  /** Balances summed over all addresses grow by 100 for every reward that reaches the chain. */
  lemma {:induction false} TotalPaid(c: Crypto, s: State, es: seq<Event>, addresses: seq<Address>)
    requires Run(c, s, es) && NoAdoption(es) && Orderly(s.pending, addresses) && Known(es, addresses)
    ensures Total(Final(c, s, es).chain, addresses) ==
            Total(s.chain, addresses) + REWARD * Paid(es, Rewards(s.pending)) as real
    decreases |es|
  {
    hide Total, Orderly, Mineable, Mined, Rewards, Lists;
    if es != [] {
      var e, t := es[0], Next(c, s, es[0]);
      assert Known([e], addresses) && Known(es[1..], addresses);
      PendingNext(c, s, e, addresses);
      TotalPaid(c, t, es[1..], addresses);
      if e.Mine? {
        MineTotal(c, s, e, addresses);
      } else {
        assert t.chain == s.chain;
      }
    }
  }

  function MinedBlocks(es: seq<Event>): nat {
    if es == [] then 0 else (if es[0].Mine? then 1 else 0) + MinedBlocks(es[1..])
  }

  /** The mined blocks whose reward names an address. */
  function RewardedBlocks(es: seq<Event>): nat {
    if es == [] then 0 else (if es[0].Mine? && es[0].to.Some? then 1 else 0) + RewardedBlocks(es[1..])
  }

  /** Additions and throwing calls do not change the chain, so once a mining call
      throws, all later ones do. */
  lemma {:induction false} ThrowingIsForGood(c: Crypto, s: State, es: seq<Event>)
    requires Run(c, s, es) && NoAdoption(es) && !Mineable(s.chain)
    ensures MinedBlocks(es) == 0 && Final(c, s, es).chain == s.chain
    decreases |es|
  {
    if es != [] {
      ThrowingIsForGood(c, Next(c, s, es[0]), es[1..]);
    }
  }

  /** Without adoptions each mined block pays its own reward, and the first one
      also what was queued before. */
  lemma {:induction false} PaidIs(c: Crypto, s: State, es: seq<Event>, queued: nat)
    requires Run(c, s, es) && NoAdoption(es)
    ensures Paid(es, queued) == RewardedBlocks(es) + if MinedBlocks(es) > 0 then queued else 0
    decreases |es|
  {
    if es != [] {
      var t, rest := Next(c, s, es[0]), es[1..];
      match es[0]
      case Add(_) => PaidIs(c, t, rest, queued);
      case Mine(_, _, _) => PaidIs(c, t, rest, 0);
      case MineThrows(to) =>
        PaidIs(c, t, rest, queued + if to.Some? then 1 else 0);
        ThrowingIsForGood(c, t, rest);
    }
  }

  /** From a new ledger, over every run of additions and mining calls, throwing
      ones included: the balances of all addresses sum to 100 for every mined
      block that rewards somebody. */
  lemma BalancesSumToRewards(c: Crypto, es: seq<Event>, addresses: seq<Address>)
    requires Run(c, Start(), es) && NoAdoption(es) && Known(es, addresses)
    ensures Total(Final(c, Start(), es).chain, addresses) == REWARD * RewardedBlocks(es) as real
    ensures |Final(c, Start(), es).chain| == 1 + MinedBlocks(es)
  {
    TotalPaid(c, Start(), es, addresses);
    PaidIs(c, Start(), es, 0);
    NoBalanceAtStart(addresses);
    ChainLength(c, Start(), es);
  }

  /** After a chain was adopted the queue may hold rewards of calls that threw
      before.  The balances then grow by 100 per rewarded block if and only if
      no such reward is queued or no block is mined. */
  lemma BalancesAfterAdoption(c: Crypto, s: State, es: seq<Event>, addresses: seq<Address>)
    requires Run(c, s, es) && NoAdoption(es) && Known(es, addresses) && Orderly(s.pending, addresses)
    ensures var paid := REWARD * RewardedBlocks(es) as real;
      Total(Final(c, s, es).chain, addresses) == Total(s.chain, addresses) + paid <==>
      Rewards(s.pending) == 0 || MinedBlocks(es) == 0
  {
    hide Total, Final, Run, Rewards;
    TotalPaid(c, s, es, addresses);
    PaidIs(c, s, es, Rewards(s.pending));
  }

  lemma {:induction false} NoBalanceAtStart(addresses: seq<Address>)
    ensures Total(Start().chain, addresses) == 0.0
  {
    if addresses != [] {
      NoBalanceAtStart(addresses[..|addresses| - 1]);
      assert Start().chain[..0] == [] && TxsBalance([], addresses[|addresses| - 1]) == 0.0;
      assert Balance(Start().chain, addresses[|addresses| - 1]) == 0.0;
    }
  }

  lemma {:induction false} ChainLength(c: Crypto, s: State, es: seq<Event>)
    requires Run(c, s, es) && NoAdoption(es)
    ensures |Final(c, s, es).chain| == |s.chain| + MinedBlocks(es)
    decreases |es|
  {
    if es != [] {
      ChainLength(c, Next(c, s, es[0]), es[1..]);
    }
  }

  /** A transaction without sender, or one that is signed and verifies. */
  predicate PlainlyValid(c: Crypto, tx: Tx) { tx.from.None? || (tx.signature != "" && c.verifies(tx)) }

  /** A block that was not changed since it was mined on top of the previous one. */
  predicate PlainlyLinked(c: Crypto, previous: Block, b: Block) {
    && (forall i | 0 <= i < |b.transactions| :: PlainlyValid(c, b.transactions[i]))
    && b.hash == c.hash(b.index, b.previousHash, b.timestamp, b.transactions, b.nonce)
    && b.previousHash == previous.hash
  }

  // ----- the difficulty ------------------------------------------------------------------------------

  /** Every tenth block after the twentieth moves the difficulty by at most one,
      by the time the ten blocks before took; any other block takes over the
      difficulty of the block before it, and one for zero. */
  ghost predicate Paced(chain: seq<Block>) {
    forall i | 1 <= i < |chain| :: PacedAt(chain, i)
  }

  ghost predicate PacedAt(chain: seq<Block>, i: nat)
    requires 1 <= i < |chain|
  {
    && chain[i].difficulty.Level? && chain[i].difficulty.value >= 0
    && var d := chain[i].difficulty.value;
    if i > 20 && i % 10 == 1 then
      var before, taken := chain[i - 10].difficulty, chain[i - 1].timestamp - chain[i - 10].timestamp;
      && before.Level? && -1 <= d - before.value <= 1
      && (d > before.value <==> taken < 50) && (d < before.value <==> taken > 200)
    else if i == 1 then d == 1
    else
      var before := chain[i - 1].difficulty;
      before.Level? && d == if before.value == 0 then 1 else before.value
  }

  lemma PaceKept(chain: seq<Block>, b: Block)
    requires chain != [] && chain[0].difficulty.NoLevel? && Paced(chain) && Mineable(chain)
    requires (forall i | 0 <= i < |chain| :: chain[i].index == i) && b.difficulty == Difficulty(chain).value
    ensures Paced(chain + [b])
  {
    var more, n := chain + [b], |chain|;
    assert forall i | 0 <= i < n :: more[i] == chain[i];
    forall i | 1 <= i <= n
      ensures PacedAt(more, i)
    {
      if i < n {
        assert PacedAt(chain, i);
      } else {
        assert more[i] == b;
        assert n > 1 ==> PacedAt(chain, n - 1);
        assert n > 20 ==> PacedAt(chain, n - 10);
      }
    }
  }

  /** The difficulty of every block of every run on a new ledger. */
  lemma {:induction false} RunIsPaced(c: Crypto, s: State, es: seq<Event>)
    requires Inv(c, s) && Paced(s.chain) && Run(c, s, es) && NoAdoption(es)
    ensures Paced(Final(c, s, es).chain)
    decreases |es|
  {
    hide Paced;
    if es != [] {
      NextKeepsInv(c, s, es[0]);
      if es[0].Mine? {
        PaceKept(s.chain, Next(c, s, es[0]).chain[|s.chain|]);
      }
      RunIsPaced(c, Next(c, s, es[0]), es[1..]);
    }
  }

  /** It is never more than one and a tenth of the block's number. */
  lemma {:induction false} DifficultyIsBounded(chain: seq<Block>, i: nat)
    requires Paced(chain) && 1 <= i < |chain|
    ensures chain[i].difficulty.Level? && 0 <= chain[i].difficulty.value <= 1 + i / 10
  {
    assert PacedAt(chain, i);
    if i > 20 && i % 10 == 1 {
      DifficultyIsBounded(chain, i - 10);
    } else if i > 1 {
      DifficultyIsBounded(chain, i - 1);
    }
  }

  // ----- the class ------------------------------------------------------------------------------------------

  class Blockchain {
    const crypto: Crypto
    var chain: seq<Block>
    var pending: seq<Tx>

    function Now(): State
      reads this
    {
      State(chain, pending)
    }

    constructor (crypto: Crypto)
      ensures Now() == Start() && Inv(crypto, Now()) && this.crypto == crypto
    {
      this.crypto := crypto;
      chain, pending := [Genesis()], [];
    }

    /** addTransaction */
    method AddTransaction(tx: Tx) returns (thrown: bool)
      modifies this`pending
      ensures Now() == Next(crypto, old(Now()), Add(tx)) && thrown == !Accepts(crypto, tx)
      ensures thrown <==>
        || tx.from.None? || tx.from.value == "" || tx.to.None? || tx.to.value == ""
        || tx.signature == "" || !crypto.verifies(tx)
      ensures pending == if thrown then old(pending) else old(pending) + [tx]
    {
      if !Truthy(tx.from) || !Truthy(tx.to) {
        return true;
      }
      if !TxValid(crypto, tx) {
        return true;
      }
      pending := pending + [tx];
      return false;
    }

    /** mineBlock: counts nonces up from zero. */
    method MineBlock(b: Block, difficulty: Level) returns (mined: Block)
      requires exists nonce: nat :: Matches(BlockHash(crypto, b, nonce), Required(difficulty))
      ensures Mined(crypto, b, Required(difficulty), mined.nonce)
      ensures mined == b.(hash := BlockHash(crypto, b, mined.nonce), nonce := mined.nonce, difficulty := difficulty)
    {
      ghost var some: nat :| Matches(BlockHash(crypto, b, some), Required(difficulty));
      var nonce, zeros := 0, Required(difficulty);
      while !Matches(BlockHash(crypto, b, nonce), zeros)
        invariant nonce <= some && forall k | 0 <= k < nonce :: !Matches(BlockHash(crypto, b, k), zeros)
        decreases some - nonce
      {
        nonce := nonce + 1;
      }
      return b.(hash := BlockHash(crypto, b, nonce), nonce := nonce, difficulty := difficulty);
    }

    /** minePendingTransactions: the block is mined once as it stands and again
        when it is added, with its index and the hash of the last block. */
    method MinePendingTransactions(to: Option<Address>, date: int) returns (result: Option<Block>)
      requires chain != [] && (Mineable(chain) ==> CanBeMined(crypto, Now(), to, date))
      modifies this
      ensures result.Some? <==> old(Mineable(chain))
      ensures result.Some? ==> var e := Mine(to, date, result.value.nonce);
        Enabled(crypto, old(Now()), e) && Now() == Next(crypto, old(Now()), e) && result.value == chain[|chain| - 1]
      ensures result.None? ==>
        Enabled(crypto, old(Now()), MineThrows(to)) && Now() == Next(crypto, old(Now()), MineThrows(to))
      ensures old(Inv(crypto, Now())) ==> Inv(crypto, Now())
      ensures result.None? ==> chain == old(chain) && |pending| == old(|pending|) + 1
      ensures result.Some? ==>
        var last, b := old(chain)[old(|chain|) - 1], result.value;
        && chain == old(chain) + [b] && pending == []
        && b.index == last.index + 1 && b.previousHash == last.hash && b.timestamp == date
        && |b.transactions| == old(|pending|) + 1 && b.transactions[..old(|pending|)] == old(pending)
        && b.hash == crypto.hash(b.index, b.previousHash, b.timestamp, b.transactions, b.nonce)
        && (b.difficulty.Level? ==> forall i | 0 <= i < b.difficulty.value :: i < |b.hash| && b.hash[i] == '0')
        && var reward := b.transactions[old(|pending|)];
          reward.from.None? && reward.to == to && reward.amount == 100.0
    {
      ghost var before := Now();
      pending := pending + [Coinbase(to)];
      var found := Difficulty(chain);
      if found.None? || (found.value.Level? && found.value.value < 0) {
        return None;
      }
      var difficulty := found.value;
      var last := chain[|chain| - 1];
      var alone := Block(0, "", last.hash, date, pending, 0, NoLevel);
      assert alone == Candidate(before, to, date).(index := 0);
      var once := MineBlock(alone, difficulty);
      var again := once.(index := (if last.index != 0 then last.index else 0) + 1, previousHash := last.hash);
      SameHashes(crypto, again, Candidate(before, to, date));
      var block := MineBlock(again, difficulty);
      chain := chain + [block];
      pending := [];
      if Inv(crypto, before) {
        NextKeepsInv(crypto, before, Mine(to, date, block.nonce));
      }
      return Some(block);
    }

    /** getBalanceOfAddress */
    method GetBalanceOfAddress(a: Address) returns (balance: real)
      ensures balance == Balance(chain, a)
    {
      balance := 0.0;
      for i := 0 to |chain|
        invariant balance == Balance(chain[..i], a)
      {
        assert chain[..i + 1][..i] == chain[..i];
        var txs := chain[i].transactions;
        ghost var before := balance;
        for j := 0 to |txs|
          invariant balance == before + TxsBalance(txs[..j], a)
        {
          assert txs[..j + 1][..j] == txs[..j];
          if txs[j].from == Some(a) {
            balance := balance - txs[j].amount;
          }
          if txs[j].to == Some(a) {
            balance := balance + txs[j].amount;
          }
        }
        assert txs[..|txs|] == txs;
      }
      assert chain[..|chain|] == chain;
    }

    /** isChainValid */
    method IsChainValid() returns (verdict: Verdict)
      ensures verdict == ChainVerdict(crypto, chain, 1)
      ensures verdict == Holds <==>
        forall k | 1 <= k < |chain| :: PlainlyLinked(crypto, chain[k - 1], chain[k])
    {
      var i := 1;
      while i < |chain|
        invariant 1 <= i && ChainVerdict(crypto, chain, i) == ChainVerdict(crypto, chain, 1)
        invariant forall k | 1 <= k < i && k < |chain| :: PlainlyLinked(crypto, chain[k - 1], chain[k])
      {
        var valid := HasValidTransactions(chain[i]);
        if valid != Holds {
          assert !PlainlyLinked(crypto, chain[i - 1], chain[i]);
          return valid;
        }
        TxsVerdictExactly(crypto, chain[i].transactions);
        if chain[i].hash != BlockHash(crypto, chain[i], chain[i].nonce) || chain[i].previousHash != chain[i - 1].hash {
          assert !PlainlyLinked(crypto, chain[i - 1], chain[i]);
          return Fails;
        }
        i := i + 1;
      }
      return Holds;
    }

    /** hasValidTransactions */
    method HasValidTransactions(b: Block) returns (verdict: Verdict)
      ensures verdict == TxsVerdict(crypto, b.transactions)
      ensures verdict == Holds <==>
        forall i | 0 <= i < |b.transactions| :: PlainlyValid(crypto, b.transactions[i])
      ensures verdict != Holds ==>
        exists i | 0 <= i < |b.transactions| ::
          && (forall k | 0 <= k < i :: PlainlyValid(crypto, b.transactions[k]))
          && !PlainlyValid(crypto, b.transactions[i]) && (verdict == Throws <==> b.transactions[i].signature == "")
    {
      var txs := b.transactions;
      assert txs[0..] == txs;
      for i := 0 to |txs|
        invariant TxsVerdict(crypto, txs[i..]) == TxsVerdict(crypto, txs)
        invariant forall k | 0 <= k < i :: PlainlyValid(crypto, txs[k])
      {
        assert txs[i..][0] == txs[i] && txs[i..][1..] == txs[i + 1..];
        verdict := TxVerdict(crypto, txs[i]);
        if verdict != Holds {
          assert !PlainlyValid(crypto, txs[i]);
          return;
        }
      }
      assert txs[|txs|..] == [];
      return Holds;
    }
  }

  /** Some nonce will do for the block as it is mined first and as it is added. */
  ghost predicate CanBeMined(c: Crypto, s: State, to: Option<Address>, date: int)
    requires Mineable(s.chain)
  {
    var zeros := Required(Difficulty(s.chain).value);
    && (exists nonce: nat :: Matches(BlockHash(c, Candidate(s, to, date), nonce), zeros))
    && exists nonce: nat :: Matches(BlockHash(c, Candidate(s, to, date).(index := 0), nonce), zeros)
  }

  /** Only what is hashed matters to mining. */
  lemma SameHashes(c: Crypto, a: Block, b: Block)
    requires a.index == b.index && a.previousHash == b.previousHash && a.timestamp == b.timestamp &&
      a.transactions == b.transactions
    ensures forall nonce: nat :: BlockHash(c, a, nonce) == BlockHash(c, b, nonce)
  {
  }

  // ----- slow ledgers ------------------------------------------------------------------------------------

  /** The difficulty of block i when blocks are far apart: it starts at one, an
      adjustment lowers it by one, and zero counts as not set. */
  function SlowDifficulty(i: nat): Level {
    if i == 0 then NoLevel else Level(if i == 21 then 0 else if i == 31 then -1 else 1)
  }

  ghost predicate SlowChain(chain: seq<Block>) {
    && chain != [] && |chain| <= 31 && chain[0] == Genesis()
    && (forall i | 0 <= i < |chain| :: chain[i].index == i && chain[i].difficulty == SlowDifficulty(i))
    && (forall i | 1 < i < |chain| :: chain[i].timestamp >= chain[i - 1].timestamp + 23)
  }

  lemma {:induction false} SlowDistance(chain: seq<Block>, i: nat, j: nat)
    requires SlowChain(chain) && 1 <= i <= j < |chain|
    ensures chain[j].timestamp >= chain[i].timestamp + 23 * (j - i)
    decreases j - i
  {
    if i < j {
      SlowDistance(chain, i, j - 1);
    }
  }

  lemma SlowDifficultyIs(chain: seq<Block>)
    requires SlowChain(chain)
    ensures Difficulty(chain) == Some(SlowDifficulty(|chain|))
  {
    var latest := chain[|chain| - 1];
    if latest.index % INTERVAL == 0 && latest.index > INTERVAL {
      SlowDistance(chain, |chain| - INTERVAL, |chain| - 1);
    }
  }

  /** The mined blocks of a run carry timestamps at least 23 milliseconds apart. */
  ghost predicate SlowRun(c: Crypto, s: State, es: seq<Event>)
    requires Run(c, s, es)
    decreases |es|
  {
    es == [] ||
    ((es[0].Mine? && |s.chain| > 1 ==> es[0].date >= s.chain[|s.chain| - 1].timestamp + 23) &&
     SlowRun(c, Next(c, s, es[0]), es[1..]))
  }

  lemma {:induction false} SlowRunKeeps(c: Crypto, s: State, es: seq<Event>)
    requires Run(c, s, es) && NoAdoption(es) && SlowRun(c, s, es) && SlowChain(s.chain)
    ensures SlowChain(Final(c, s, es).chain)
    decreases |es|
  {
    if es != [] {
      if es[0].Mine? {
        SlowDifficultyIs(s.chain);
        var t := Next(c, s, es[0]).chain;
        assert forall i | 0 <= i < |s.chain| :: t[i] == s.chain[i];
      }
      SlowRunKeeps(c, Next(c, s, es[0]), es[1..]);
    }
  }

  /** A ledger whose blocks are never mined within 23 milliseconds of each other
      mines at most 30 of them: the second adjustment of the difficulty makes it
      negative, and from then on every mining call throws. */
  lemma SlowLedgerStops(c: Crypto, es: seq<Event>)
    requires Run(c, Start(), es) && NoAdoption(es) && SlowRun(c, Start(), es)
    ensures MinedBlocks(es) <= 30
    ensures MinedBlocks(es) == 30 ==> !Mineable(Final(c, Start(), es).chain)
  {
    SlowRunKeeps(c, Start(), es);
    ChainLength(c, Start(), es);
    SlowDifficultyIs(Final(c, Start(), es).chain);
  }

  // ----- a reward paid twice --------------------------------------------------------------------------------

  const ANY_HASH := Crypto((_, _, _, _, _) => "0", _ => true)

  /** Mining calls every `gap` milliseconds. */
  function Calls(to: Address, n: nat, gap: nat): seq<Event> {
    seq(n, i requires 0 <= i < n => Mine(Some(to), BIRTH + gap * (i + 1), 0))
  }

  lemma {:induction false} RunMore(c: Crypto, s: State, es: seq<Event>, e: Event)
    requires Run(c, s, es) && Enabled(c, Final(c, s, es), e)
    ensures Run(c, s, es + [e]) && Final(c, s, es + [e]) == Next(c, Final(c, s, es), e)
    decreases |es|
  {
    if es == [] {
      assert [] + [e] == [e] && [e][1..] == [];
    } else {
      RunMore(c, Next(c, s, es[0]), es[1..], e);
      assert (es + [e])[0] == es[0] && (es + [e])[1..] == es[1..] + [e];
    }
  }

  /** The chain of a ledger that is mined every `gap` milliseconds. */
  ghost predicate Regular(chain: seq<Block>, gap: nat) {
    && chain != [] && chain[0] == Genesis()
    && (forall i | 0 <= i < |chain| :: chain[i].index == i && chain[i].timestamp == BIRTH + gap * i)
    && (forall i | 0 < i < |chain| :: chain[i].difficulty == if gap == 1000 then SlowDifficulty(i) else Level(1))
  }

  lemma RegularDifficulty(chain: seq<Block>, gap: nat)
    requires Regular(chain, gap) && ((gap == 1000 && |chain| <= 31) || gap == 10)
    ensures Difficulty(chain) == Some(if gap == 1000 then SlowDifficulty(|chain|) else Level(1))
  {
    var n := |chain|;
    var latest := chain[n - 1];
    if latest.index % INTERVAL == 0 && latest.index > INTERVAL {
      var prev := chain[n - INTERVAL];
      assert latest.timestamp - prev.timestamp == gap * (n - 1) - gap * (n - INTERVAL) == gap * 9;
    }
  }

  /** Every call of a slow ledger of at most 30 blocks, and of one that is mined
      every ten milliseconds, succeeds. */
  lemma {:induction false} CallsRun(to: Address, n: nat, gap: nat)
    requires (gap == 1000 && n <= 30) || gap == 10
    ensures Run(ANY_HASH, Start(), Calls(to, n, gap))
    ensures var s := Final(ANY_HASH, Start(), Calls(to, n, gap));
      Regular(s.chain, gap) && |s.chain| == n + 1 && s.pending == []
  {
    if n == 0 {
      assert Calls(to, n, gap) == [];
    } else {
      CallsRun(to, n - 1, gap);
      var es, e := Calls(to, n - 1, gap), Mine(Some(to), BIRTH + gap * n, 0);
      var s := Final(ANY_HASH, Start(), es);
      assert Calls(to, n, gap) == es + [e];
      RegularDifficulty(s.chain, gap);
      AnyHashMines(s, Some(to), e.date);
      RunMore(ANY_HASH, Start(), es, e);
      RegularMore(s, e, gap);
    }
  }

  lemma AnyHashMines(s: State, to: Option<Address>, date: int)
    requires Mineable(s.chain) && Required(Difficulty(s.chain).value) <= 1
    ensures Enabled(ANY_HASH, s, Mine(to, date, 0))
  {
    assert Zeros(0) == "" && Zeros(1) == "0";
  }

  lemma RegularMore(s: State, e: Event, gap: nat)
    requires Regular(s.chain, gap) && e.Mine? && e.date == BIRTH + gap * |s.chain| && Mineable(s.chain)
    requires Difficulty(s.chain) == Some(if gap == 1000 then SlowDifficulty(|s.chain|) else Level(1))
    ensures Regular(Next(ANY_HASH, s, e).chain, gap)
  {
    var chain := Next(ANY_HASH, s, e).chain;
    assert forall i | 0 <= i < |s.chain| :: chain[i] == s.chain[i];
  }

  /** A slow ledger mines 30 blocks; the next call throws and leaves its reward
      queued.  The node then adopts the longer chain of a ledger that was mined
      every ten milliseconds, as it does once, and mines: its block pays two rewards. */
  lemma RewardPaidTwice(miner: Address, other: Address)
    ensures Run(ANY_HASH, Start(), Calls(other, 31, 10))
    ensures var chain := Final(ANY_HASH, Start(), Calls(other, 31, 10)).chain;
      var es := Calls(miner, 30, 1000) + [MineThrows(Some(miner))] + [Adopt(chain)] +
        [Mine(Some(miner), BIRTH + 40000, 0)];
      && Run(ANY_HASH, Start(), es)
      && |Final(ANY_HASH, Start(), es).chain| == 33
      && Final(ANY_HASH, Start(), es).chain[32].transactions == [Coinbase(Some(miner)), Coinbase(Some(miner))]
  {
    hide Run, Final, Calls, Regular;
    CallsRun(other, 31, 10);
    CallsRun(miner, 30, 1000);
    var c, slow, queue := ANY_HASH, Calls(miner, 30, 1000), [Coinbase(Some(miner))];
    var s, chain := Final(c, Start(), slow), Final(c, Start(), Calls(other, 31, 10)).chain;
    RegularDifficulty(s.chain, 1000);
    RegularDifficulty(chain, 10);
    RunMore(c, Start(), slow, MineThrows(Some(miner)));
    assert [] + queue == queue;
    RunMore(c, Start(), slow + [MineThrows(Some(miner))], Adopt(chain));
    AnyHashMines(State(chain, queue), Some(miner), BIRTH + 40000);
    RunMore(c, Start(), slow + [MineThrows(Some(miner))] + [Adopt(chain)], Mine(Some(miner), BIRTH + 40000, 0));
    assert queue + queue == [Coinbase(Some(miner)), Coinbase(Some(miner))];
  }
}
