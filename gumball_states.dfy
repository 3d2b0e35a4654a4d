/**
 * The gumball program's records (config, machine, prize), its constants, the
 * accounts that hold a machine's value, and the on-chain store the
 * instructions update: one config record, machine records keyed by id,
 * prize records keyed by (machine id, prize index), and the ledger.
 */
module GumballStates {
  import opened Common
  import opened GumballErrors
  import opened AuctionUtils

  /** The basis of basis-point arithmetic: 10000 is 100.00%. */
  const FEE_MANTISSA: int := 10_000

  /** The bounds on a machine's number of tickets at creation. */
  const MINIMUM_TICKETS: int := 3
  const MAXIMUM_TICKETS: int := 1_000

  // Pause-flag bit of each pausable instruction.
  const CREATE_GUMBALL_PAUSE: nat := 0
  const ACTIVATE_GUMBALL_PAUSE: nat := 1
  const ADD_PRIZE_IN_GUMBALL_PAUSE: nat := 2
  const CANCEL_GUMBALL_PAUSE: nat := 3
  const CLAIM_PRIZES_BACK_PAUSE: nat := 4
  const END_GUMBALL_PAUSE: nat := 5
  const SPIN_GUMBALL_PAUSE: nat := 6
  const UPDATE_GUMBALL_PAUSE: nat := 7

  /** Prize indices are u16, so a machine has at most this many prize records. */
  const PRIZE_SLOTS: nat := 0x1_0000

  datatype GumballConfig = GumballConfig(
    gumballOwner: Pubkey,
    gumballAdmin: Pubkey,
    creationFeeLamports: U64,
    ticketFeeBps: U16,
    minimumGumballPeriod: U32,
    maximumGumballPeriod: U32,
    gumballCount: U32,
    pauseFlags: U8)

  /** The machine lifecycle; the source's `None` variant is called Uninitialized here. */
  datatype GumballState = Uninitialized | Initialized | Active | Cancelled | CompletedSuccessfully | CompletedFailed

  datatype GumballMachine = GumballMachine(
    gumballId: U32,
    creator: Pubkey,
    startTime: I64,
    endTime: I64,
    totalTickets: U16,
    ticketsSold: U16,
    prizesAdded: U16,
    ticketMint: Option<Pubkey>,
    ticketPrice: U64,
    status: GumballState)

  /** One prize slot of a machine: `quantity` units of `prizeAmount` tokens of `mint` each. */
  datatype Prize = Prize(
    gumballId: U32,
    prizeIndex: U16,
    ifPrizeNft: bool,
    mint: Pubkey,
    totalAmount: U64,
    prizeAmount: U64,
    quantity: U16)

  /** A machine that can still take prizes and, once Active, spins. */
  predicate Open(g: GumballMachine)
  {
    g.status == Initialized || g.status == Active
  }

  // ---------------------------------------------------------------------
  // Accounts holding a machine's value
  // ---------------------------------------------------------------------

  /** Where ticket payments are held: the machine account's own lamports for SOL tickets, its escrow for the ticket mint otherwise. */
  function TicketVault(g: GumballMachine, id: nat): Holder
  {
    InstanceVault(id, g.ticketMint)
  }

  /** The insufficient-balance error of a transfer of the ticket asset. */
  function TicketShortfall(ticketMint: Option<Pubkey>): GumballError
  {
    if ticketMint.None? then InsufficientSolBalance else InsufficientTokenBalance
  }

  /** The tokens a prize record has committed of a mint. */
  function Share(p: Prize, mint: Pubkey): nat
  {
    if p.mint == mint then p.totalAmount else 0
  }

  /** The tokens of a mint committed by the prize record at slot `i` of machine `id`, if there is one. */
  function SlotShare(prizes: map<(nat, nat), Prize>, id: nat, mint: Pubkey, i: nat): nat
  {
    if (id, i) in prizes then Share(prizes[(id, i)], mint) else 0
  }

  /** The tokens of a mint committed by the prize records of machine `id` at slots below `n`. */
  function CommittedBelow(prizes: map<(nat, nat), Prize>, id: nat, mint: Pubkey, n: nat): nat
  {
    if n == 0 then 0 else CommittedBelow(prizes, id, mint, n - 1) + SlotShare(prizes, id, mint, n - 1)
  }

  /**
   * The tokens of a mint that machine `id`'s prize records promise to
   * spinners. Prizes of one mint share the machine's escrow for that mint,
   * so the escrow answers for their sum.
   */
  function Committed(prizes: map<(nat, nat), Prize>, id: nat, mint: Pubkey): nat
  {
    CommittedBelow(prizes, id, mint, PRIZE_SLOTS)
  }

  /**
   * What a machine owes out of an account it holds: the committed prize
   * tokens out of each escrow, and the ticket revenue collected so far out
   * of its ticket vault (both, should the two accounts be one).
   */
  function Owed(g: GumballMachine, id: nat, prizes: map<(nat, nat), Prize>, h: Holder): nat
  {
    (if h.asset.Token? then Committed(prizes, id, h.asset.mint) else 0)
    + (if h == TicketVault(g, id) then g.ticketPrice * g.ticketsSold else 0)
  }

  /** Every account of machine `id` holds what the machine owes out of it. */
  ghost predicate Covered(l: Ledger, g: GumballMachine, id: nat, prizes: map<(nat, nat), Prize>)
  {
    forall h: Holder :: h.owner == InstancePda(id) ==> Balance(l, h) >= Owed(g, id, prizes, h)
  }

  /** Two prize maps agree on every record of every machine other than `id`. */
  ghost predicate SamePrizesElsewhere(prizes: map<(nat, nat), Prize>, prizes': map<(nat, nat), Prize>, id: nat)
  {
    forall k: (nat, nat) :: k.0 != id ==> (k in prizes <==> k in prizes') && (k in prizes ==> prizes'[k] == prizes[k])
  }

  // ---------------------------------------------------------------------
  // Committed amounts
  // ---------------------------------------------------------------------

  /**
   * Replacing the record at slot `i` changes what the machine has committed
   * of a mint by exactly the difference between the new and the old
   * record's share.
   */
  lemma {:induction false} CommittedPut(prizes: map<(nat, nat), Prize>, id: nat, mint: Pubkey, i: nat, p: Prize, n: nat)
    requires i < n
    ensures CommittedBelow(prizes[(id, i) := p], id, mint, n) + SlotShare(prizes, id, mint, i)
         == CommittedBelow(prizes, id, mint, n) + Share(p, mint)
  {
    if i < n - 1 {
      CommittedPut(prizes, id, mint, i, p, n - 1);
    } else {
      CommittedFrame(prizes, prizes[(id, i) := p], id, mint, n - 1);
    }
  }

  /** Two prize maps whose slots of machine `id` commit the same amounts of a mint commit the same total. */
  lemma {:induction false} CommittedFrame(prizes: map<(nat, nat), Prize>, prizes': map<(nat, nat), Prize>, id: nat,
                                          mint: Pubkey, n: nat)
    requires forall j: nat :: j < n ==> SlotShare(prizes', id, mint, j) == SlotShare(prizes, id, mint, j)
    ensures CommittedBelow(prizes', id, mint, n) == CommittedBelow(prizes, id, mint, n)
  {
    if n > 0 {
      CommittedFrame(prizes, prizes', id, mint, n - 1);
    }
  }

  /** A machine without prize records has committed nothing. */
  lemma {:induction false} CommittedNone(prizes: map<(nat, nat), Prize>, id: nat, mint: Pubkey, n: nat)
    requires forall k :: k in prizes ==> k.0 != id
    ensures CommittedBelow(prizes, id, mint, n) == 0
  {
    if n > 0 {
      CommittedNone(prizes, id, mint, n - 1);
    }
  }

  /** Changes to other machines' prize records leave what machine `j` has committed unchanged. */
  lemma CommittedElsewhere(prizes: map<(nat, nat), Prize>, prizes': map<(nat, nat), Prize>, id: nat, j: nat,
                           mint: Pubkey)
    requires SamePrizesElsewhere(prizes, prizes', id) && j != id
    ensures Committed(prizes', j, mint) == Committed(prizes, j, mint)
  {
    forall i: nat | i < PRIZE_SLOTS
      ensures SlotShare(prizes', j, mint, i) == SlotShare(prizes, j, mint, i)
    {
      assert (j, i).0 != id;
    }
    CommittedFrame(prizes, prizes', j, mint, PRIZE_SLOTS);
  }

  /** What a machine has committed of a mint includes what any one of its slots below `n` commits. */
  lemma {:induction false} CommittedAtLeastSlot(prizes: map<(nat, nat), Prize>, id: nat, mint: Pubkey, i: nat, n: nat)
    requires i < n
    ensures CommittedBelow(prizes, id, mint, n) >= SlotShare(prizes, id, mint, i)
  {
    if i < n - 1 {
      CommittedAtLeastSlot(prizes, id, mint, i, n - 1);
    }
  }

  /** Replacing a record of machine `id` leaves the other machines' records as they were. */
  lemma PutPrizeElsewhere(prizes: map<(nat, nat), Prize>, key: (nat, nat), p: Prize)
    ensures SamePrizesElsewhere(prizes, prizes[key := p], key.0)
  {
  }

  // ---------------------------------------------------------------------
  // Invariants
  // ---------------------------------------------------------------------

  ghost predicate ConfigValid(c: GumballConfig)
  {
    c.minimumGumballPeriod > 0 && c.maximumGumballPeriod > c.minimumGumballPeriod && c.gumballCount >= 1
  }

  /**
   * What every machine record satisfies: it carries its own id, a positive
   * ticket price, a start no later than its end, and the prize counters
   * keep `tickets_sold <= prizes_added <= total_tickets`.
   */
  ghost predicate MachineValid(id: nat, g: GumballMachine)
  {
    && g.gumballId == id
    && g.status != Uninitialized
    && g.ticketPrice > 0
    && g.startTime <= g.endTime
    && g.ticketsSold <= g.prizesAdded <= g.totalTickets
  }

  /**
   * What every prize record satisfies: it carries its own key, a positive
   * unit amount, a total that is exactly `quantity` units, and an NFT prize
   * is one token in at most one unit.
   */
  ghost predicate PrizeValid(k: (nat, nat), p: Prize)
  {
    && p.gumballId == k.0
    && p.prizeIndex == k.1
    && p.prizeAmount > 0
    && p.totalAmount == p.prizeAmount * p.quantity
    && (p.ifPrizeNft ==> p.prizeAmount == 1 && p.quantity <= 1)
  }

  /**
   * The invariant of the whole gumball store: a valid config; every machine
   * valid, below the counter, and covered by the ledger while it is open;
   * every prize record valid and belonging to a stored machine.
   */
  ghost predicate StateValid(c: GumballConfig, gumballs: map<nat, GumballMachine>, prizes: map<(nat, nat), Prize>,
                             l: Ledger)
  {
    && ConfigValid(c)
    && (forall id :: id in gumballs ==>
          && id < c.gumballCount
          && MachineValid(id, gumballs[id])
          && (Open(gumballs[id]) ==> Covered(l, gumballs[id], id, prizes)))
    && (forall k :: k in prizes ==> k.0 in gumballs && PrizeValid(k, prizes[k]))
  }

  /**
   * Storing a valid machine under an id below the counter, together with
   * valid prize records for it, keeps the store valid, provided the ledger
   * and the prize records changed on that machine only, the counter did not
   * go down, and the machine is covered while it is open.
   */
  lemma PutKeepsValid(c: GumballConfig, c': GumballConfig, gumballs: map<nat, GumballMachine>,
                      prizes: map<(nat, nat), Prize>, prizes': map<(nat, nat), Prize>, l: Ledger, l': Ledger,
                      id: nat, g: GumballMachine)
    requires StateValid(c, gumballs, prizes, l)
    requires ConfigValid(c') && c'.gumballCount >= c.gumballCount && id < c'.gumballCount
    requires SameInstanceBalances(l, l', id) && SamePrizesElsewhere(prizes, prizes', id)
    requires forall k :: k in prizes' && k.0 == id ==> PrizeValid(k, prizes'[k])
    requires MachineValid(id, g) && (Open(g) ==> Covered(l', g, id, prizes'))
    ensures StateValid(c', gumballs[id := g], prizes', l')
  {
    forall j | j in gumballs && j != id && Open(gumballs[j])
      ensures Covered(l', gumballs[j], j, prizes')
    {
      forall h: Holder | h.owner == InstancePda(j)
        ensures Balance(l', h) >= Owed(gumballs[j], j, prizes', h)
      {
        assert h.owner.InstancePda? && h.owner.id != id;
        if h.asset.Token? {
          CommittedElsewhere(prizes, prizes', id, j, h.asset.mint);
        }
      }
    }
  }

  /** A covered machine's escrow for a slot's mint holds at least that slot's remaining tokens. */
  lemma EscrowCoversSlot(l: Ledger, g: GumballMachine, id: nat, prizes: map<(nat, nat), Prize>, i: nat)
    requires Covered(l, g, id, prizes) && i < PRIZE_SLOTS && (id, i) in prizes
    ensures Balance(l, InstanceEscrow(id, prizes[(id, i)].mint)) >= prizes[(id, i)].totalAmount
  {
    var e := InstanceEscrow(id, prizes[(id, i)].mint);
    assert Balance(l, e) >= Owed(g, id, prizes, e);
    CommittedAtLeastSlot(prizes, id, e.asset.mint, i, PRIZE_SLOTS);
  }

  /** A valid record with a unit left holds at least one unit's tokens. */
  lemma UnitWithinTotal(k: (nat, nat), p: Prize)
    requires PrizeValid(k, p) && p.quantity > 0
    ensures p.totalAmount >= p.prizeAmount
  {
    MulMonotone(1, p.quantity, p.prizeAmount);
  }

  /**
   * In a valid store, the escrow of an open machine for a prize's mint holds
   * at least that prize's remaining tokens, so at least one unit while any
   * is left.
   */
  lemma PrizeFunded(c: GumballConfig, gumballs: map<nat, GumballMachine>, prizes: map<(nat, nat), Prize>, l: Ledger,
                    k: (nat, nat))
    requires StateValid(c, gumballs, prizes, l) && k in prizes && Open(gumballs[k.0])
    ensures Balance(l, InstanceEscrow(k.0, prizes[k].mint)) >= prizes[k].totalAmount
    ensures prizes[k].quantity > 0 ==> prizes[k].totalAmount >= prizes[k].prizeAmount
  {
    var g := gumballs[k.0];
    assert PrizeValid(k, prizes[k]) && Covered(l, g, k.0, prizes);
    assert k == (k.0, k.1);
    EscrowCoversSlot(l, g, k.0, prizes, k.1);
    if prizes[k].quantity > 0 {
      UnitWithinTotal(k, prizes[k]);
    }
  }

  /**
   * Storing a valid machine together with one valid record for one of its
   * slots keeps the store valid, under the conditions of `PutKeepsValid`.
   */
  lemma PutPrizeKeepsValid(c: GumballConfig, gumballs: map<nat, GumballMachine>, prizes: map<(nat, nat), Prize>,
                           l: Ledger, l': Ledger, key: (nat, nat), p: Prize, g: GumballMachine)
    requires StateValid(c, gumballs, prizes, l) && key.0 < c.gumballCount
    requires SameInstanceBalances(l, l', key.0) && PrizeValid(key, p)
    requires MachineValid(key.0, g) && (Open(g) ==> Covered(l', g, key.0, prizes[key := p]))
    ensures StateValid(c, gumballs[key.0 := g], prizes[key := p], l')
  {
    var prizes' := prizes[key := p];
    forall k | k in prizes' && k.0 == key.0
      ensures PrizeValid(k, prizes'[k])
    {
      if k != key {
        assert k in prizes;
      }
    }
    PutPrizeElsewhere(prizes, key, p);
    PutKeepsValid(c, c, gumballs, prizes, prizes', l, l', key.0, g);
  }

  class GumballStore {
    var config: GumballConfig
    var gumballs: map<nat, GumballMachine>
    var prizes: map<(nat, nat), Prize>
    var ledger: Ledger

    ghost predicate Valid()
      reads this
    {
      StateValid(config, gumballs, prizes, ledger)
    }

    /** A deployment whose config account has been initialised and that holds no machines yet. */
    constructor (config: GumballConfig, ledger: Ledger)
      ensures this.config == config && this.ledger == ledger && gumballs == map[] && prizes == map[]
      ensures Valid() <==> ConfigValid(config)
    {
      this.config := config;
      this.gumballs := map[];
      this.prizes := map[];
      this.ledger := ledger;
    }
  }
}
