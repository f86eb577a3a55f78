/** Subnets, NAT gateways and private routes of the VPC (infrastructure/pulumi/networking.ts), as address blocks. */
module Networking {

  datatype Environment = Dev | Staging | Prod

  /** The address block written `a.b.third.0/20`. */
  datatype Block = Block(base: int)

  const BLOCK_SIZE := 4096
  const VPC_SIZE := 65536

  datatype Vpc = Vpc(a: nat, b: nat)

  function VpcBase(vpc: Vpc): int {
    vpc.a * 16777216 + vpc.b * 65536
  }

  function Cidr(vpc: Vpc, third: nat): Block {
    Block(VpcBase(vpc) + third * 256)
  }

  predicate Covers(block: Block, address: int) {
    block.base <= address < block.base + BLOCK_SIZE
  }

  predicate InVpc(vpc: Vpc, address: int) {
    VpcBase(vpc) <= address < VpcBase(vpc) + VPC_SIZE
  }

  /** A block address without host bits, and all of the block in the VPC. */
  predicate ProperBlock(vpc: Vpc, block: Block) {
    block.base % BLOCK_SIZE == 0 && InVpc(vpc, block.base) && InVpc(vpc, block.base + BLOCK_SIZE - 1)
  }

  /** The address written `a.b.c.d`. */
  function Address(a: nat, b: nat, c: nat, d: nat): nat {
    ((a * 256 + b) * 256 + c) * 256 + d
  }

  lemma DottedIn(a: nat, b: nat, c: nat, d: nat, x: nat, y: nat, low: nat, size: nat)
    requires a < 256 && b < 256 && c < 256 && d < 256 && x < 256 && y < 256 && low + size <= 256
    ensures Address(x, y, low, 0) <= Address(a, b, c, d) < Address(x, y, low, 0) + size * 256 <==>
            a == x && b == y && low <= c < low + size
  {
    var own, other := a * 256 + b, x * 256 + y;
    assert own == other <==> a == x && b == y;
    assert Address(a, b, c, d) == own * 65536 + c * 256 + d;
    assert Address(x, y, low, 0) == other * 65536 + low * 256;
  }

  /** A block `a.b.third.0/20` covers exactly the addresses that begin with `a.b` and whose third number is one of
      sixteen; the VPC `a.b.0.0/16` consists of all that begin with `a.b`. */
  lemma BlockAddresses(vpc: Vpc, third: nat, a: nat, b: nat, c: nat, d: nat)
    requires vpc.a < 256 && vpc.b < 256 && third + 16 <= 256 && a < 256 && b < 256 && c < 256 && d < 256
    ensures Covers(Cidr(vpc, third), Address(a, b, c, d)) <==> a == vpc.a && b == vpc.b && third <= c < third + 16
    ensures InVpc(vpc, Address(a, b, c, d)) <==> a == vpc.a && b == vpc.b
  {
    DottedIn(a, b, c, d, vpc.a, vpc.b, third, 16);
    DottedIn(a, b, c, d, vpc.a, vpc.b, 0, 256);
  }

  ghost predicate Disjoint(x: Block, y: Block) {
    forall address :: !(Covers(x, address) && Covers(y, address))
  }

  datatype Network = Network(
    publicSubnets: seq<Block>,
    privateSubnets: seq<Block>,
    natSubnets: seq<nat>,   // the public subnet that each NAT gateway sits in
    natOfRoute: seq<nat>)   // the NAT gateway that each private subnet's default route points to

  /** Indexing past the end of a list throws at run time. */
  datatype Outcome = Built(network: Network) | Throws

  function AllBlocks(network: Network): seq<Block> {
    network.publicSubnets + network.privateSubnets
  }

  /** The loops of the program, for any number of zones. */
  method BuildNetwork(vpc: Vpc, environment: Environment, azCount: nat) returns (outcome: Outcome)
    ensures outcome.Built? <==> environment == Prod || azCount >= 1
    ensures outcome.Built? ==>
              var n := outcome.network;
              && |n.publicSubnets| == |n.privateSubnets| == |n.natOfRoute| == azCount
              && (forall i :: 0 <= i < azCount ==> n.publicSubnets[i] == Cidr(vpc, i * 16))
              && (forall i :: 0 <= i < azCount ==> n.privateSubnets[i] == Cidr(vpc, 128 + i * 16))
              && (forall i :: 0 <= i < |n.natSubnets| ==> n.natSubnets[i] < azCount)
              && (forall i :: 0 <= i < azCount ==> n.natOfRoute[i] < |n.natSubnets|)
              && (forall i :: 0 <= i < azCount ==>
                    n.natSubnets[n.natOfRoute[i]] == (if environment == Prod then i else 0))
              && |n.natSubnets| == (if environment == Prod then azCount else 1)
  {
    var publicSubnets: seq<Block> := [];
    for i := 0 to azCount
      invariant |publicSubnets| == i && forall k :: 0 <= k < i ==> publicSubnets[k] == Cidr(vpc, k * 16)
    {
      publicSubnets := publicSubnets + [Cidr(vpc, i * 16)];
    }

    var privateSubnets: seq<Block> := [];
    for i := 0 to azCount
      invariant |privateSubnets| == i && forall k :: 0 <= k < i ==> privateSubnets[k] == Cidr(vpc, 128 + k * 16)
    {
      privateSubnets := privateSubnets + [Cidr(vpc, 128 + i * 16)];
    }

    var natCount := if environment == Prod then azCount else 1;
    var natSubnets: seq<nat> := [];
    for i := 0 to natCount
      invariant |natSubnets| == i && i <= azCount && forall k :: 0 <= k < i ==> natSubnets[k] == k
    {
      if i >= |publicSubnets| {
        return Throws;
      }
      natSubnets := natSubnets + [i];
    }

    var natOfRoute: seq<nat> := [];
    for i := 0 to azCount
      invariant |natOfRoute| == i
      invariant forall k :: 0 <= k < i ==> natOfRoute[k] == (if environment == Prod then k else 0)
    {
      var natIndex := if environment == Prod then i else 0;
      natOfRoute := natOfRoute + [natIndex];
    }
    outcome := Built(Network(publicSubnets, privateSubnets, natSubnets, natOfRoute));
  }

  /** The blocks that the program lays out for n zones. */
  predicate LaidOut(vpc: Vpc, n: nat, network: Network) {
    && |network.publicSubnets| == |network.privateSubnets| == n
    && (forall i :: 0 <= i < n ==> network.publicSubnets[i] == Cidr(vpc, i * 16))
    && (forall i :: 0 <= i < n ==> network.privateSubnets[i] == Cidr(vpc, 128 + i * 16))
  }

  /** Every block is a proper /20 block of the VPC, and no two share an address. */
  ghost predicate Sound(vpc: Vpc, network: Network) {
    var blocks := AllBlocks(network);
    && (forall i :: 0 <= i < |blocks| ==> ProperBlock(vpc, blocks[i]))
    && (forall i, j :: 0 <= i < j < |blocks| ==> Disjoint(blocks[i], blocks[j]))
  }

  /** Where the k-th of the 2n blocks starts, counted in /20 blocks from the start of the VPC. */
  function Slot(n: nat, k: nat): nat {
    if k < n then k else 8 + (k - n)
  }

  lemma BlockAt(vpc: Vpc, n: nat, network: Network, k: nat)
    requires LaidOut(vpc, n, network) && k < 2 * n
    ensures |AllBlocks(network)| == 2 * n
    ensures AllBlocks(network)[k] == Block(VpcBase(vpc) + Slot(n, k) * BLOCK_SIZE)
  {
    if k < n {
      assert AllBlocks(network)[k] == network.publicSubnets[k];
    } else {
      assert AllBlocks(network)[k] == network.privateSubnets[k - n];
    }
  }

  lemma SlotsDisjoint(base: int, x: nat, y: nat)
    requires x != y
    ensures Disjoint(Block(base + x * BLOCK_SIZE), Block(base + y * BLOCK_SIZE))
  {
  }

  lemma BaseAligned(vpc: Vpc, slot: nat)
    ensures (VpcBase(vpc) + slot * BLOCK_SIZE) % BLOCK_SIZE == 0
  {
    assert VpcBase(vpc) + slot * BLOCK_SIZE == BLOCK_SIZE * (vpc.a * 4096 + vpc.b * 16 + slot);
  }

  /** With nine zones or more the ninth public block is the first private one, and the ninth private block
      starts behind the VPC. */
  lemma NineZonesCollide(vpc: Vpc, n: nat, network: Network)
    requires LaidOut(vpc, n, network) && n >= 9
    ensures network.publicSubnets[8] == network.privateSubnets[0]
    ensures !InVpc(vpc, network.privateSubnets[8].base)
    ensures !Sound(vpc, network)
  {
    var blocks := AllBlocks(network);
    assert blocks[8] == network.publicSubnets[8] && blocks[n] == network.privateSubnets[0];
    assert Covers(blocks[8], blocks[8].base) && Covers(blocks[n], blocks[8].base);
    assert !Disjoint(blocks[8], blocks[n]);
  }

  /** The layout is sound if and only if there are at most eight zones. */
  lemma SoundIffEightZones(vpc: Vpc, n: nat, network: Network)
    requires LaidOut(vpc, n, network)
    ensures Sound(vpc, network) <==> n <= 8
  {
    if n > 8 {
      NineZonesCollide(vpc, n, network);
    } else {
      var blocks := AllBlocks(network);
      forall i | 0 <= i < |blocks|
        ensures ProperBlock(vpc, blocks[i])
      {
        BlockAt(vpc, n, network, i);
        BaseAligned(vpc, Slot(n, i));
      }
      forall i, j | 0 <= i < j < |blocks|
        ensures Disjoint(blocks[i], blocks[j])
      {
        BlockAt(vpc, n, network, i);
        BlockAt(vpc, n, network, j);
        SlotsDisjoint(VpcBase(vpc), Slot(n, i), Slot(n, j));
      }
    }
  }

  /** Eight zones use up the VPC: every address lies in exactly one block. */
  lemma EightZonesTile(vpc: Vpc, network: Network, address: int)
    requires LaidOut(vpc, 8, network) && InVpc(vpc, address)
    ensures |AllBlocks(network)| == 16
    ensures exists k :: 0 <= k < 16 && Covers(AllBlocks(network)[k], address)
    ensures forall j, k | 0 <= j < 16 && 0 <= k < 16 ::
              Covers(AllBlocks(network)[j], address) && Covers(AllBlocks(network)[k], address) ==> j == k
  {
    var slot := (address - VpcBase(vpc)) / BLOCK_SIZE;
    BlockAt(vpc, 8, network, slot);
    assert Slot(8, slot) == slot;
    assert Covers(AllBlocks(network)[slot], address);
    SoundIffEightZones(vpc, 8, network);
    var blocks := AllBlocks(network);
    forall j, k | 0 <= j < 16 && 0 <= k < 16 && Covers(blocks[j], address) && Covers(blocks[k], address)
      ensures j == k
    {
      assert j < k ==> Disjoint(blocks[j], blocks[k]);
      assert k < j ==> Disjoint(blocks[k], blocks[j]);
    }
  }

  /** Fewer than eight zones leave addresses unused. */
  lemma FewerZonesLeaveGaps(vpc: Vpc, n: nat, network: Network)
    requires LaidOut(vpc, n, network) && n < 8
    ensures var free := VpcBase(vpc) + n * BLOCK_SIZE;
            InVpc(vpc, free) && forall k :: 0 <= k < |AllBlocks(network)| ==> !Covers(AllBlocks(network)[k], free)
  {
    forall k | 0 <= k < |AllBlocks(network)|
      ensures !Covers(AllBlocks(network)[k], VpcBase(vpc) + n * BLOCK_SIZE)
    {
      BlockAt(vpc, n, network, k);
    }
  }
}
