/** The checks a block has to pass before the proxy believes a peer about it. */
module Witness {
  import opened Decoding
  import opened Encoding
  import opened Merkle
  import opened Options

  const COMMITMENT_MAGIC: Bytes := [0x6a, 0x24, 0xaa, 0x21, 0xa9, 0xed]

  predicate Commits(o: TxOut) {
    |o.scriptPubkey| >= 38 && o.scriptPubkey[..6] == COMMITMENT_MAGIC
  }

  predicate AnyCommits(outs: seq<TxOut>) {
    exists k :: 0 <= k < |outs| && Commits(outs[k])
  }

  predicate IsCoinbase(tx: Tx) {
    |tx.inputs| == 1 && tx.inputs[0].prevTxid == ZERO_DIGEST && tx.inputs[0].prevVout == 0xFFFF_FFFF
  }

  function Txid(h: HashFn, tx: Tx): Digest {
    h(LegacyBytes(tx))
  }

  function Wtxid(h: HashFn, tx: Tx): Digest {
    h(FullBytes(tx))
  }

  function BlockHash(h: HashFn, b: Block): Digest {
    h(HeaderBytes(b.header))
  }

  predicate HasWitness(tx: Tx) {
    exists i :: 0 <= i < |tx.inputs| && tx.inputs[i].stack != []
  }

  /** The search from the end that picks the commitment output. It finds one
      exactly when some output commits, so it agrees with the test that
      `CheckWitnesses` makes first. */
  function LastCommitment(outs: seq<TxOut>): (p: Option<nat>)
    ensures p.Some? ==> p.value < |outs| && Commits(outs[p.value])
    ensures p.Some? ==> forall k :: p.value < k < |outs| ==> !Commits(outs[k])
    ensures p.None? ==> forall k :: 0 <= k < |outs| ==> !Commits(outs[k])
  {
    if outs == [] then None
    else if Commits(outs[|outs| - 1]) then Some(|outs| - 1)
    else LastCommitment(outs[..|outs| - 1])
  }

  /** The leaves of the witness tree; the coinbase counts as zero. */
  function WitnessLeaves(h: HashFn, txs: seq<Tx>): (leaves: seq<Digest>)
    ensures |leaves| == |txs|
  {
    seq(|txs|, i requires 0 <= i < |txs| => if i == 0 then ZERO_DIGEST else Wtxid(h, txs[i]))
  }

  /** The salt of the commitment. Blocks from before activation carry none and
      are salted with zeros. */
  function Reserved(coinbase: Tx): (r: Option<Digest>)
    requires |coinbase.inputs| == 1
  {
    SaltOf(coinbase.inputs[0].stack)
  }

  function SaltOf(stack: seq<Vec<byte>>): Option<Digest> {
    if |stack| == 0 then Some(ZERO_DIGEST)
    else if |stack| == 1 && |stack[0]| == 32 then Some(stack[0])
    else None
  }

  /** Whether the 32 bytes after the magic are the hash of root and salt. */
  predicate Describes(h: HashFn, script: Bytes, root: Digest, salt: Digest)
    requires |script| >= 38
  {
    script[6..38] == h(Join(root, salt))
  }

  predicate CheckWitnessCommitment(h: HashFn, b: Block) {
    b.txs != [] && IsCoinbase(b.txs[0]) &&
    LastCommitment(b.txs[0].outputs).Some? &&
    Root(h, WitnessLeaves(h, b.txs)).Some? &&
    Reserved(b.txs[0]).Some? &&
    Describes(h, b.txs[0].outputs[LastCommitment(b.txs[0].outputs).value].scriptPubkey,
              Root(h, WitnessLeaves(h, b.txs)).value, Reserved(b.txs[0]).value)
  }

  predicate CheckWitnesses(h: HashFn, b: Block) {
    if b.txs == [] || !AnyCommits(b.txs[0].outputs)
    then !exists i :: 0 <= i < |b.txs| && HasWitness(b.txs[i])
    else CheckWitnessCommitment(h, b)
  }

  function TxidLeaves(h: HashFn, txs: seq<Tx>): (leaves: seq<Digest>)
    ensures |leaves| == |txs|
  {
    seq(|txs|, i requires 0 <= i < |txs| => Txid(h, txs[i]))
  }

  predicate CheckMerkleRoot(h: HashFn, b: Block) {
    Root(h, TxidLeaves(h, b.txs)) == Some(b.header.merkleRoot)
  }

  /** Everything asked of a block before it is accepted as the one with `hash`. */
  predicate CheckBlock(h: HashFn, hash: Digest, b: Block) {
    BlockHash(h, b) == hash && CheckMerkleRoot(h, b) && CheckWitnesses(h, b)
  }

  // ----- what the checks compute, byte by byte -----

  /** With no committing output in the first transaction a block passes exactly
      when it carries no witness at all. */
  lemma UncommittedCheck(h: HashFn, b: Block)
    requires b.txs == [] || forall k :: 0 <= k < |b.txs[0].outputs| ==>
               var script := b.txs[0].outputs[k].scriptPubkey;
               |script| < 38 || script[..6] != [0x6a, 0x24, 0xaa, 0x21, 0xa9, 0xed]
    ensures CheckWitnesses(h, b) <==>
            forall i, j :: 0 <= i < |b.txs| && 0 <= j < |b.txs[i].inputs| ==> b.txs[i].inputs[j].stack == []
  {
    assert b.txs == [] || !AnyCommits(b.txs[0].outputs);
    if forall i, j :: 0 <= i < |b.txs| && 0 <= j < |b.txs[i].inputs| ==> b.txs[i].inputs[j].stack == [] {
      forall i | 0 <= i < |b.txs| ensures !HasWitness(b.txs[i]) {
      }
    } else {
      var i, j :| 0 <= i < |b.txs| && 0 <= j < |b.txs[i].inputs| && b.txs[i].inputs[j].stack != [];
      assert HasWitness(b.txs[i]);
    }
  }

  lemma {:induction false} LastCommitmentAt(outs: seq<TxOut>, p: nat)
    requires p < |outs| && Commits(outs[p]) && forall k :: p < k < |outs| ==> !Commits(outs[k])
    ensures LastCommitment(outs) == Some(p)
  {
    assert LastCommitment(outs).Some?;
  }

  /** With a committing output, the last of them at `p`, a block passes exactly when
      the first transaction is a coinbase and the 32 bytes after the magic are the
      hash of the top of the witness tree followed by the salt: the only item of
      the coinbase witness, 32 bytes long, or zeros if it has none. */
  lemma CommittedCheck(h: HashFn, b: Block, p: nat, leaves: seq<Digest>, height: nat)
    requires b.txs != [] && p < |b.txs[0].outputs|
    requires forall k :: p <= k < |b.txs[0].outputs| ==>
               var script := b.txs[0].outputs[k].scriptPubkey;
               (|script| >= 38 && script[..6] == [0x6a, 0x24, 0xaa, 0x21, 0xa9, 0xed] <==> k == p)
    requires |leaves| == |b.txs| && leaves[0] == seq(32, _ => 0)
    requires forall i :: 1 <= i < |b.txs| ==> leaves[i] == h(FullBytes(b.txs[i]))
    requires IsTop(|leaves|, height)
    ensures var zeros: Bytes, root: Bytes := seq(32, _ => 0), Node(h, leaves, height, 0);
            var found := b.txs[0].outputs[p].scriptPubkey[6..38];
            CheckWitnesses(h, b) <==>
              && |b.txs[0].inputs| == 1 && b.txs[0].inputs[0].prevTxid == zeros
              && b.txs[0].inputs[0].prevVout == 0xFFFF_FFFF
              && var stack := b.txs[0].inputs[0].stack;
                 || (|stack| == 0 && found == h(root + zeros))
                 || (|stack| == 1 && |stack[0]| == 32 && found == h(root + stack[0]))
  {
    var zeros: Bytes := seq(32, _ => 0);
    assert zeros == ZERO_DIGEST;
    LastCommitmentAt(b.txs[0].outputs, p);
    assert WitnessLeaves(h, b.txs) == leaves;
    RootIsTop(h, leaves, height);
  }

  /** The header is the hash and carries the top of the tree over the txids. */
  lemma HeaderCheck(h: HashFn, hash: Digest, b: Block, leaves: seq<Digest>, height: nat)
    requires |leaves| == |b.txs| && forall i :: 0 <= i < |b.txs| ==> leaves[i] == h(LegacyBytes(b.txs[i]))
    requires IsTop(|leaves|, height)
    ensures CheckBlock(h, hash, b) <==>
              && hash == h(HeaderBytes(b.header)) && b.header.merkleRoot == Node(h, leaves, height, 0)
              && CheckWitnesses(h, b)
  {
    assert TxidLeaves(h, b.txs) == leaves;
    RootIsTop(h, leaves, height);
  }

  /** In a block of a coinbase with one committing output, salted, and one other
      transaction. */
  lemma CommittedPair(h: HashFn, b: Block, salt: Digest)
    requires |b.txs| == 2 && |b.txs[0].outputs| == 1 && |b.txs[0].inputs| == 1
    requires b.txs[0].inputs[0].prevTxid == seq(32, _ => 0) && b.txs[0].inputs[0].prevVout == 0xFFFF_FFFF
    requires b.txs[0].inputs[0].stack == [salt]
    requires var script := b.txs[0].outputs[0].scriptPubkey;
             |script| >= 38 && script[..6] == [0x6a, 0x24, 0xaa, 0x21, 0xa9, 0xed]
    ensures var zeros: Bytes, witnessId: Bytes := seq(32, _ => 0), h(FullBytes(b.txs[1]));
            var root: Bytes := h(zeros + witnessId);
            CheckWitnesses(h, b) <==> b.txs[0].outputs[0].scriptPubkey[6..38] == h(root + salt)
  {
    var leaves: seq<Digest> := [ZERO_DIGEST, h(FullBytes(b.txs[1]))];
    assert ZERO_DIGEST == seq(32, _ => 0);
    TopOfTwo(h, leaves);
    CommittedCheck(h, b, 0, leaves, 1);
  }

  // ----- what was hashed -----

  /** The message behind the commitment, if the check gets that far. */
  ghost function CommitmentMessages(h: HashFn, b: Block): set<Bytes> {
    if b.txs != [] && |b.txs[0].inputs| == 1 && Reserved(b.txs[0]).Some?
    then {Join(Root(h, WitnessLeaves(h, b.txs)).value, Reserved(b.txs[0]).value)} else {}
  }

  /** Everything hashed to check the witnesses of `b` is among `messages`. */
  ghost predicate WitnessesHashed(h: HashFn, b: Block, messages: set<Bytes>) {
    && (forall tx {:trigger FullBytes(tx)} :: tx in b.txs ==> FullBytes(tx) in messages)
    && TreeMessages(h, WitnessLeaves(h, b.txs)) <= messages
    && CommitmentMessages(h, b) <= messages
  }

  /** Everything hashed to check `b` is among `messages`. */
  ghost predicate BlockHashed(h: HashFn, b: Block, messages: set<Bytes>) {
    && HeaderBytes(b.header) in messages
    && (forall tx {:trigger LegacyBytes(tx)} :: tx in b.txs ==> LegacyBytes(tx) in messages)
    && TreeMessages(h, TxidLeaves(h, b.txs)) <= messages
    && WitnessesHashed(h, b, messages)
  }

  // ----- uniqueness -----

  /** The same ordered transactions apart from witnesses. */
  ghost predicate SameBody(a: Block, b: Block) {
    |a.txs| == |b.txs| && forall i :: 0 <= i < |a.txs| ==> Strip(a.txs[i]) == Strip(b.txs[i])
  }

  /** No salt at all, or the salt of zeros written out. */
  predicate ZeroSalt(stack: seq<Vec<byte>>) {
    stack == [] || stack == [ZERO_DIGEST]
  }

  predicate ZeroSalted(tx: Tx) {
    |tx.inputs| == 1 && ZeroSalt(tx.inputs[0].stack)
  }

  /** Equal, or differing only as no salt against a salt of zeros. */
  ghost predicate SameCoinbase(s: Tx, t: Tx) {
    s == t || (Strip(s) == Strip(t) && ZeroSalted(s) && ZeroSalted(t))
  }

  ghost predicate SameBlockContents(a: Block, b: Block) {
    |a.txs| == |b.txs| &&
    (forall i :: 1 <= i < |a.txs| ==> a.txs[i] == b.txs[i]) &&
    (a.txs != [] ==> SameCoinbase(a.txs[0], b.txs[0]))
  }

  lemma StripFacts(s: Tx, t: Tx)
    requires Strip(s) == Strip(t)
    ensures s.outputs == t.outputs && |s.inputs| == |t.inputs| && (IsCoinbase(s) <==> IsCoinbase(t))
    ensures forall k :: 0 <= k < |s.inputs| ==> StripInput(s.inputs[k]) == StripInput(t.inputs[k])
    ensures (forall k :: 0 <= k < |s.inputs| ==> s.inputs[k].stack == t.inputs[k].stack) ==> s == t
  {
    forall k | 0 <= k < |s.inputs| ensures StripInput(s.inputs[k]) == StripInput(t.inputs[k]) {
      assert Strip(s).inputs[k] == Strip(t).inputs[k];
    }
    if forall k :: 0 <= k < |s.inputs| ==> s.inputs[k].stack == t.inputs[k].stack {
      InputsFromParts(s.inputs, t.inputs);
    }
  }

  lemma ReservedTellsCoinbase(s: Tx, t: Tx)
    requires Strip(s) == Strip(t) && |s.inputs| == 1 && |t.inputs| == 1
    requires Reserved(s).Some? && Reserved(s) == Reserved(t)
    ensures SameCoinbase(s, t)
  {
    StripFacts(s, t);
    var p, q := s.inputs[0].stack, t.inputs[0].stack;
    if |p| == 1 {
      assert p == [p[0]];
    }
    if |q| == 1 {
      assert q == [q[0]];
    }
  }

  lemma CommittedUniqueness(h: HashFn, a: Block, b: Block, messages: set<Bytes>)
    requires SameBody(a, b) && CheckWitnessCommitment(h, a) && CheckWitnessCommitment(h, b)
    requires WitnessesHashed(h, a, messages) && WitnessesHashed(h, b, messages) && CollisionFree(h, messages)
    ensures SameBlockContents(a, b)
  {
    var s, t := a.txs[0], b.txs[0];
    StripFacts(s, t);
    var la, lb := WitnessLeaves(h, a.txs), WitnessLeaves(h, b.txs);
    var ra, rb := Root(h, la).value, Root(h, lb).value;
    assert Join(ra, Reserved(s).value) in messages && Join(rb, Reserved(t).value) in messages;
    assert h(Join(ra, Reserved(s).value)) == h(Join(rb, Reserved(t).value));
    SplitAt(ra, rb, Reserved(s).value, Reserved(t).value);
    ReservedTellsCoinbase(s, t);
    RootInjective(h, la, lb, messages);
    forall i | 1 <= i < |a.txs| ensures a.txs[i] == b.txs[i] {
      assert la[i] == Wtxid(h, a.txs[i]) && lb[i] == Wtxid(h, b.txs[i]);
      assert FullBytes(a.txs[i]) in messages && FullBytes(b.txs[i]) in messages;
      FullReadable(a.txs[i], b.txs[i], [], []);
    }
  }

  /** Two accepted blocks with the same non-witness content carry the same witnesses. */
  lemma WitnessUniqueness(h: HashFn, a: Block, b: Block, messages: set<Bytes>)
    requires SameBody(a, b) && CheckWitnesses(h, a) && CheckWitnesses(h, b)
    requires WitnessesHashed(h, a, messages) && WitnessesHashed(h, b, messages) && CollisionFree(h, messages)
    ensures SameBlockContents(a, b)
  {
    if a.txs != [] {
      StripFacts(a.txs[0], b.txs[0]);
    }
    if a.txs != [] && AnyCommits(a.txs[0].outputs) {
      CommittedUniqueness(h, a, b, messages);
    } else {
      forall i | 0 <= i < |a.txs| ensures a.txs[i] == b.txs[i] {
        StripFacts(a.txs[i], b.txs[i]);
        assert !HasWitness(a.txs[i]) && !HasWitness(b.txs[i]);
      }
    }
  }

  /** Any change to a witness outside the coinbase is caught. */
  lemma TamperingIsCaught(h: HashFn, a: Block, b: Block, i: nat, messages: set<Bytes>)
    requires SameBody(a, b) && CheckWitnesses(h, a) && 1 <= i < |a.txs| && a.txs[i] != b.txs[i]
    requires WitnessesHashed(h, a, messages) && WitnessesHashed(h, b, messages) && CollisionFree(h, messages)
    ensures !CheckWitnesses(h, b)
  {
    if CheckWitnesses(h, b) {
      WitnessUniqueness(h, a, b, messages);
    }
  }

  function StripTxs(txs: seq<Tx>): (r: seq<Tx>)
    ensures |r| == |txs| && forall i :: 0 <= i < |txs| ==> r[i] == Strip(txs[i])
  {
    seq(|txs|, i requires 0 <= i < |txs| => Strip(txs[i]))
  }

  function StripBlock(b: Block): Block {
    Block(b.header, StripTxs(b.txs))
  }

  lemma StripStrip(tx: Tx)
    ensures Strip(Strip(tx)) == Strip(tx) && !HasWitness(Strip(tx))
    ensures Strip(tx) == tx <==> !HasWitness(tx)
  {
    assert StripInputs(StripInputs(tx.inputs)) == StripInputs(tx.inputs);
    if !HasWitness(tx) {
      assert StripInputs(tx.inputs) == tx.inputs;
    }
  }

  /** A stripped copy of an accepted block is accepted exactly when nothing that
      matters was removed: no other transaction had a witness, and the coinbase
      had at most the salt of zeros. */
  lemma StrippedAcceptedIff(h: HashFn, b: Block, messages: set<Bytes>)
    requires CheckWitnesses(h, b)
    requires WitnessesHashed(h, b, messages) && WitnessesHashed(h, StripBlock(b), messages)
    requires CollisionFree(h, messages)
    ensures CheckWitnesses(h, StripBlock(b)) <==>
            forall i :: 0 <= i < |b.txs| ==> !HasWitness(b.txs[i]) || (i == 0 && ZeroSalted(b.txs[0]))
  {
    var s := StripBlock(b);
    forall i | 0 <= i < |b.txs| ensures Strip(s.txs[i]) == Strip(b.txs[i]) {
      StripStrip(b.txs[i]);
    }
    if CheckWitnesses(h, s) {
      WitnessUniqueness(h, b, s, messages);
      forall i | 0 <= i < |b.txs| ensures !HasWitness(b.txs[i]) || (i == 0 && ZeroSalted(b.txs[0])) {
        StripStrip(b.txs[i]);
      }
    } else if forall i :: 0 <= i < |b.txs| ==> !HasWitness(b.txs[i]) || (i == 0 && ZeroSalted(b.txs[0])) {
      HarmlessStrip(h, b);
    }
  }

  lemma HarmlessStrip(h: HashFn, b: Block)
    requires CheckWitnesses(h, b)
    requires forall i :: 0 <= i < |b.txs| ==> !HasWitness(b.txs[i]) || (i == 0 && ZeroSalted(b.txs[0]))
    ensures CheckWitnesses(h, StripBlock(b))
  {
    var s := StripBlock(b);
    forall i | 0 <= i < |b.txs| ensures !HasWitness(s.txs[i]) && (i > 0 ==> s.txs[i] == b.txs[i]) {
      StripStrip(b.txs[i]);
    }
    if b.txs != [] {
      StripStrip(b.txs[0]);
      StripFacts(s.txs[0], b.txs[0]);
      assert WitnessLeaves(h, s.txs) == WitnessLeaves(h, b.txs);
    }
  }

  /** A peer that removes all witnesses, one of them outside the coinbase, is caught. */
  lemma StrippingIsCaught(h: HashFn, b: Block, i: nat, messages: set<Bytes>)
    requires CheckWitnesses(h, b) && 1 <= i < |b.txs| && HasWitness(b.txs[i])
    requires WitnessesHashed(h, b, messages) && WitnessesHashed(h, StripBlock(b), messages)
    requires CollisionFree(h, messages)
    ensures !CheckWitnesses(h, StripBlock(b))
  {
    StrippedAcceptedIff(h, b, messages);
  }

  /** Two blocks accepted for the same hash have the same header. They are the same
      block, up to how a salt of zeros is written, exactly when they have as many
      transactions; and the same block altogether exactly when, besides, the
      coinbases spend with the same witness. */
  lemma AcceptedBlockUnique(h: HashFn, hash: Digest, a: Block, b: Block, messages: set<Bytes>)
    requires CheckBlock(h, hash, a) && CheckBlock(h, hash, b)
    requires BlockHashed(h, a, messages) && BlockHashed(h, b, messages) && CollisionFree(h, messages)
    ensures a.header == b.header && (SameBlockContents(a, b) <==> |a.txs| == |b.txs|)
    ensures a.txs != [] && b.txs != [] && (a == b <==> |a.txs| == |b.txs| && a.txs[0].inputs == b.txs[0].inputs)
  {
    HeaderReadable(a.header, b.header);
    if |a.txs| == |b.txs| {
      AcceptedBodies(h, a, b, messages);
      WitnessUniqueness(h, a, b, messages);
      if a.txs[0].inputs == b.txs[0].inputs {
        StripFacts(a.txs[0], b.txs[0]);
        assert a.txs == b.txs;
      }
    }
  }

  lemma AcceptedBodies(h: HashFn, a: Block, b: Block, messages: set<Bytes>)
    requires CheckMerkleRoot(h, a) && CheckMerkleRoot(h, b) && a.header == b.header && |a.txs| == |b.txs|
    requires BlockHashed(h, a, messages) && BlockHashed(h, b, messages) && CollisionFree(h, messages)
    ensures SameBody(a, b)
  {
    var la, lb := TxidLeaves(h, a.txs), TxidLeaves(h, b.txs);
    RootInjective(h, la, lb, messages);
    forall i | 0 <= i < |a.txs| ensures Strip(a.txs[i]) == Strip(b.txs[i]) {
      assert la[i] == Txid(h, a.txs[i]) && lb[i] == Txid(h, b.txs[i]);
      assert LegacyBytes(a.txs[i]) in messages && LegacyBytes(b.txs[i]) in messages;
      LegacyReadable(a.txs[i], b.txs[i]);
    }
  }

  /** The block with another witness for its coinbase. */
  function Resalted(b: Block, stack: Vec<Vec<byte>>): Block
    requires b.txs != [] && |b.txs[0].inputs| == 1
  {
    var coinbase := b.txs[0];
    Block(b.header, b.txs[0 := coinbase.(inputs := [coinbase.inputs[0].(stack := stack)])])
  }

  /** The other way to write a salt of zeros. */
  function OtherZeroSalt(stack: seq<Vec<byte>>): Vec<Vec<byte>> {
    if stack == [] then [ZERO_DIGEST] else []
  }

  /** With as many transactions an accepted block has at most one other beside it:
      itself with its salt of zeros written the other way. */
  lemma OnlyResalted(h: HashFn, hash: Digest, a: Block, b: Block, messages: set<Bytes>)
    requires CheckBlock(h, hash, a) && CheckBlock(h, hash, b) && |a.txs| == |b.txs| && a != b
    requires BlockHashed(h, a, messages) && BlockHashed(h, b, messages) && CollisionFree(h, messages)
    ensures a.txs != [] && AnyCommits(a.txs[0].outputs) && ZeroSalted(a.txs[0])
    ensures b == Resalted(a, OtherZeroSalt(a.txs[0].inputs[0].stack))
  {
    AcceptedBlockUnique(h, hash, a, b, messages);
    var s, t := a.txs[0], b.txs[0];
    StripFacts(s, t);
    assert s.inputs[0].stack == t.inputs[0].stack ==> s.inputs == t.inputs;
    assert HasWitness(s) || HasWitness(t);
    assert t == s.(inputs := [s.inputs[0].(stack := t.inputs[0].stack)]) by {
      assert t.inputs == [s.inputs[0].(stack := t.inputs[0].stack)];
    }
    assert b.txs == a.txs[0 := t];
  }

  /** And that one is accepted, whatever other witnesses the block has. */
  lemma ResaltedAccepted(h: HashFn, hash: Digest, b: Block, stack: Vec<Vec<byte>>)
    requires CheckBlock(h, hash, b) && b.txs != [] && AnyCommits(b.txs[0].outputs)
    requires ZeroSalted(b.txs[0]) && ZeroSalt(stack)
    ensures CheckBlock(h, hash, Resalted(b, stack))
  {
    var r := Resalted(b, stack);
    ResaltedLegacy(b.txs[0], r.txs[0]);
    assert TxidLeaves(h, r.txs) == TxidLeaves(h, b.txs);
    assert WitnessLeaves(h, r.txs) == WitnessLeaves(h, b.txs);
  }

  lemma ResaltedLegacy(s: Tx, t: Tx)
    requires |s.inputs| == |t.inputs| == 1 && t == s.(inputs := [s.inputs[0].(stack := t.inputs[0].stack)])
    ensures LegacyBytes(s) == LegacyBytes(t)
  {
    assert InputsBytes(s.inputs[1..]) == InputsBytes(t.inputs[1..]) == [];
    assert InputBytes(s.inputs[0]) == InputBytes(t.inputs[0]);
  }

  /** The block with its last transaction written twice. */
  function Lengthened(b: Block): Block
    requires b.txs != [] && |b.txs| + 1 < VEC_LIMIT
  {
    Block(b.header, b.txs + [b.txs[|b.txs| - 1]])
  }

  /** The counts can differ: an accepted block with an odd number of transactions,
      more than one, is accepted for the same hash with the last one written twice. */
  lemma LengthenedAccepted(h: HashFn, hash: Digest, b: Block)
    requires CheckBlock(h, hash, b) && |b.txs| % 2 == 1 && 1 < |b.txs| < VEC_LIMIT - 1
    ensures CheckBlock(h, hash, Lengthened(b))
  {
    LengthenedRoots(h, b);
    LengthenedWitnesses(h, b);
  }

  lemma LeavesSnoc(h: HashFn, txs: seq<Tx>, tx: Tx)
    requires txs != []
    ensures TxidLeaves(h, txs + [tx]) == TxidLeaves(h, txs) + [Txid(h, tx)]
    ensures WitnessLeaves(h, txs + [tx]) == WitnessLeaves(h, txs) + [Wtxid(h, tx)]
  {
  }

  lemma LengthenedRoots(h: HashFn, b: Block)
    requires |b.txs| % 2 == 1 && 1 < |b.txs| < VEC_LIMIT - 1
    ensures Root(h, TxidLeaves(h, Lengthened(b).txs)) == Root(h, TxidLeaves(h, b.txs))
    ensures Root(h, WitnessLeaves(h, Lengthened(b).txs)) == Root(h, WitnessLeaves(h, b.txs))
  {
    LeavesSnoc(h, b.txs, b.txs[|b.txs| - 1]);
    RepeatedLastKeepsRoot(h, TxidLeaves(h, b.txs));
    RepeatedLastKeepsRoot(h, WitnessLeaves(h, b.txs));
  }

  lemma LengthenedWitnesses(h: HashFn, b: Block)
    requires CheckWitnesses(h, b) && 1 < |b.txs| < VEC_LIMIT - 1
    requires Root(h, WitnessLeaves(h, Lengthened(b).txs)) == Root(h, WitnessLeaves(h, b.txs))
    ensures CheckWitnesses(h, Lengthened(b))
  {
    var longer := Lengthened(b);
    assert longer.txs[0] == b.txs[0];
    if !AnyCommits(b.txs[0].outputs) {
      forall i | 0 <= i < |longer.txs| ensures !HasWitness(longer.txs[i]) {
        assert longer.txs[i] == b.txs[if i < |b.txs| then i else |b.txs| - 1];
      }
    }
  }

  // ----- completeness -----

  /** The output script that commits to `root` under `salt`. */
  function CommitmentScript(h: HashFn, root: Digest, salt: Digest): Vec<byte> {
    var message: Bytes := root + salt;
    [0x6a, 0x24, 0xaa, 0x21, 0xa9, 0xed] + h(message)
  }

  function CoinbaseStack(reserved: Option<Digest>): Vec<Vec<byte>> {
    if reserved.Some? then [reserved.value] else []
  }

  /** `coinbase` with the salt and the outputs given. */
  function WithCommitment(coinbase: Tx, reserved: Option<Digest>, outputs: Vec<TxOut>): Tx
    requires |coinbase.inputs| == 1
  {
    var i := coinbase.inputs[0];
    Tx(coinbase.version, [TxIn(i.prevTxid, i.prevVout, i.scriptSig, i.sequence, CoinbaseStack(reserved))],
       outputs, coinbase.lockTime)
  }

  function Salt(reserved: Option<Digest>): Digest {
    if reserved.Some? then reserved.value else ZERO_DIGEST
  }

  /** The outputs of a coinbase that commits to `root` under `salt`. */
  function CommittingOutputs(h: HashFn, before: seq<TxOut>, value: U64, after: seq<TxOut>, root: Digest, salt: Digest)
    : seq<TxOut>
  {
    before + [TxOut(value, CommitmentScript(h, root, salt))] + after
  }

  /** An honest block over `txs`: the commitment in its coinbase is salted with
      `reserved`, or with zeros and no coinbase witness. */
  function CommittingBlock(h: HashFn, header: Header, coinbase: Tx, before: Vec<TxOut>, value: U64, after: Vec<TxOut>,
                           txs: Vec<Tx>, reserved: Option<Digest>): (b: Block)
    requires |coinbase.inputs| == 1
    requires |before| + 1 + |after| < VEC_LIMIT && 1 + |txs| < VEC_LIMIT
  {
    Block(header,
          [WithCommitment(coinbase, reserved, CommittingOutputs(h, before, value, after,
                          Root(h, WitnessLeaves(h, [coinbase] + txs)).value, Salt(reserved)))] + txs)
  }

  lemma ScriptDescribes(h: HashFn, root: Digest, salt: Digest, value: U64)
    ensures var script := CommitmentScript(h, root, salt);
            Commits(TxOut(value, script)) && Describes(h, script, root, salt)
  {
    var script := CommitmentScript(h, root, salt);
    assert script[..6] == COMMITMENT_MAGIC && script[6..38] == h(Join(root, salt));
  }

  lemma {:induction false} LastCommitmentIs(before: seq<TxOut>, o: TxOut, after: seq<TxOut>)
    requires Commits(o) && forall k :: 0 <= k < |after| ==> !Commits(after[k])
    ensures LastCommitment(before + [o] + after) == Some(|before|)
    decreases |after|
  {
    var outs := before + [o] + after;
    if after == [] {
      assert outs[|outs| - 1] == o;
    } else {
      var init := after[..|after| - 1];
      assert outs[|outs| - 1] == after[|after| - 1];
      assert outs[..|outs| - 1] == before + [o] + init;
      LastCommitmentIs(before, o, init);
    }
  }

  lemma OutputsDescribe(h: HashFn, before: seq<TxOut>, value: U64, after: seq<TxOut>, root: Digest, salt: Digest)
    requires forall k :: 0 <= k < |after| ==> !Commits(after[k])
    ensures var outs := CommittingOutputs(h, before, value, after, root, salt);
            LastCommitment(outs) == Some(|before|) && AnyCommits(outs) &&
            Describes(h, outs[|before|].scriptPubkey, root, salt)
  {
    var o := TxOut(value, CommitmentScript(h, root, salt));
    ScriptDescribes(h, root, salt, value);
    LastCommitmentIs(before, o, after);
    assert CommittingOutputs(h, before, value, after, root, salt)[|before|] == o;
  }

  lemma LeavesIgnoreCoinbase(h: HashFn, a: Tx, b: Tx, txs: seq<Tx>)
    ensures WitnessLeaves(h, [a] + txs) == WitnessLeaves(h, [b] + txs)
  {
  }

  lemma CommittedCoinbase(coinbase: Tx, reserved: Option<Digest>, outputs: Vec<TxOut>)
    requires IsCoinbase(coinbase)
    ensures var cb := WithCommitment(coinbase, reserved, outputs);
            IsCoinbase(cb) && cb.outputs == outputs && Reserved(cb) == Some(Salt(reserved))
  {
  }

  lemma DescribedIsAccepted(h: HashFn, header: Header, cb: Tx, txs: Vec<Tx>, p: nat, root: Digest, salt: Digest)
    requires 1 + |txs| < VEC_LIMIT && IsCoinbase(cb) && AnyCommits(cb.outputs) && LastCommitment(cb.outputs) == Some(p)
    requires Root(h, WitnessLeaves(h, [cb] + txs)) == Some(root) && Reserved(cb) == Some(salt)
    requires Describes(h, cb.outputs[p].scriptPubkey, root, salt)
    ensures CheckWitnesses(h, Block(header, [cb] + txs))
  {
    var b := Block(header, [cb] + txs);
    assert b.txs[0] == cb;
  }

  /** Every honest block is accepted, whatever outputs stand before the
      commitment and whatever outputs that do not commit stand after it. */
  lemma HonestBlockAccepted(h: HashFn, header: Header, coinbase: Tx, before: Vec<TxOut>, value: U64, after: Vec<TxOut>,
                            txs: Vec<Tx>, reserved: Option<Digest>)
    requires IsCoinbase(coinbase)
    requires |before| + 1 + |after| < VEC_LIMIT && 1 + |txs| < VEC_LIMIT
    requires forall k :: 0 <= k < |after| ==> !Commits(after[k])
    ensures CheckWitnesses(h, CommittingBlock(h, header, coinbase, before, value, after, txs, reserved))
  {
    var root, salt := Root(h, WitnessLeaves(h, [coinbase] + txs)).value, Salt(reserved);
    var outputs := CommittingOutputs(h, before, value, after, root, salt);
    var cb := WithCommitment(coinbase, reserved, outputs);
    OutputsDescribe(h, before, value, after, root, salt);
    CommittedCoinbase(coinbase, reserved, outputs);
    LeavesIgnoreCoinbase(h, coinbase, cb, txs);
    DescribedIsAccepted(h, header, cb, txs, |before|, root, salt);
  }
}
