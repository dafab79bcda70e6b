/** The consensus encoding of transactions and blocks, as BIP144 lays it out:
    little-endian integers, CompactSize counts, and a witness section that is
    present only when some input has a witness. */
module Encoding {
  newtype byte = x: int | 0 <= x < 256

  type Bytes = seq<byte>

  const USIZE: nat := 0x1_0000_0000_0000_0000

  /** No allocation is longer than the largest signed word. */
  const VEC_LIMIT: nat := 0x8000_0000_0000_0000

  /** A Rust vector. */
  type Vec<T> = s: seq<T> | |s| < VEC_LIMIT witness []

  type U32 = n: nat | n < 0x1_0000_0000
  type U64 = n: nat | n < USIZE

  type Digest = b: Bytes | |b| == 32 witness seq(32, _ => 0)

  const ZERO_DIGEST: Digest :=
    [0, 0, 0, 0, 0, 0, 0, 0, 0, 0, 0, 0, 0, 0, 0, 0, 0, 0, 0, 0, 0, 0, 0, 0, 0, 0, 0, 0, 0, 0, 0, 0]

  datatype TxIn = TxIn(prevTxid: Digest, prevVout: U32, scriptSig: Vec<byte>, sequence: U32, stack: Vec<Vec<byte>>)
  datatype TxOut = TxOut(value: U64, scriptPubkey: Vec<byte>)
  datatype Tx = Tx(version: U32, inputs: Vec<TxIn>, outputs: Vec<TxOut>, lockTime: U32)
  datatype Header = Header(version: U32, prevBlock: Digest, merkleRoot: Digest, time: U32, bits: U32, nonce: U32)
  datatype Block = Block(header: Header, txs: Vec<Tx>)

  function LittleEndian(n: nat, width: nat): (b: Bytes)
    ensures |b| == width
  {
    if width == 0 then [] else [(n % 256) as byte] + LittleEndian(n / 256, width - 1)
  }

  function Pow256(width: nat): nat {
    if width == 0 then 1 else 256 * Pow256(width - 1)
  }

  function CompactSize(n: nat): Bytes {
    if n < 0xFD then [n as byte]
    else if n <= 0xFFFF then [0xFD] + LittleEndian(n, 2)
    else if n <= 0xFFFF_FFFF then [0xFE] + LittleEndian(n, 4)
    else [0xFF] + LittleEndian(n, 8)
  }

  /** One encoding after the other. */
  function Concat<T>(write: T -> Bytes, xs: seq<T>): Bytes {
    if xs == [] then [] else write(xs[0]) + Concat(write, xs[1..])
  }

  function VarBytes(b: Bytes): Bytes {
    CompactSize(|b|) + b
  }

  function InputBytes(i: TxIn): Bytes {
    i.prevTxid + (LittleEndian(i.prevVout, 4) + (VarBytes(i.scriptSig) + LittleEndian(i.sequence, 4)))
  }

  function InputsBytes(ins: seq<TxIn>): Bytes {
    Concat(InputBytes, ins)
  }

  function OutputBytes(o: TxOut): Bytes {
    LittleEndian(o.value, 8) + VarBytes(o.scriptPubkey)
  }

  function OutputsBytes(outs: seq<TxOut>): Bytes {
    Concat(OutputBytes, outs)
  }

  function ItemBytes(item: Vec<byte>): Bytes {
    VarBytes(item)
  }

  function ItemsBytes(items: seq<Vec<byte>>): Bytes {
    Concat(ItemBytes, items)
  }

  function WitnessBytes(w: Vec<Vec<byte>>): Bytes {
    CompactSize(|w|) + ItemsBytes(w)
  }

  function WitnessesBytes(ins: seq<TxIn>): Bytes {
    if ins == [] then [] else WitnessBytes(ins[0].stack) + WitnessesBytes(ins[1..])
  }

  /** Whether the encoder writes the marker, the flag and the witness section. */
  predicate Segregated(tx: Tx) {
    tx.inputs == [] || exists i :: 0 <= i < |tx.inputs| && tx.inputs[i].stack != []
  }

  function IoBytes(tx: Tx): Bytes {
    CompactSize(|tx.inputs|) + (InputsBytes(tx.inputs) + (CompactSize(|tx.outputs|) + OutputsBytes(tx.outputs)))
  }

  /** What a txid hashes. */
  function LegacyBytes(tx: Tx): Bytes {
    LittleEndian(tx.version, 4) + (IoBytes(tx) + LittleEndian(tx.lockTime, 4))
  }

  /** What follows the version: the marker byte is zero exactly in the segregated form. */
  function AfterVersion(tx: Tx): Bytes {
    if Segregated(tx) then [0, 1] + (IoBytes(tx) + (WitnessesBytes(tx.inputs) + LittleEndian(tx.lockTime, 4)))
    else IoBytes(tx) + LittleEndian(tx.lockTime, 4)
  }

  /** What a wtxid hashes, and what a block carries. */
  function FullBytes(tx: Tx): Bytes {
    LittleEndian(tx.version, 4) + AfterVersion(tx)
  }

  function HeaderBytes(hd: Header): (b: Bytes)
    ensures |b| == 80
  {
    LittleEndian(hd.version, 4) + (hd.prevBlock + (hd.merkleRoot +
    (LittleEndian(hd.time, 4) + (LittleEndian(hd.bits, 4) + LittleEndian(hd.nonce, 4)))))
  }

  function TxsBytes(txs: seq<Tx>): Bytes {
    Concat(FullBytes, txs)
  }

  function BlockBytes(b: Block): Bytes {
    HeaderBytes(b.header) + (CompactSize(|b.txs|) + TxsBytes(b.txs))
  }

  /** The input without its witness. */
  function StripInput(i: TxIn): TxIn {
    i.(stack := [])
  }

  function StripInputs(ins: seq<TxIn>): (r: seq<TxIn>)
    ensures |r| == |ins|
    ensures forall k :: 0 <= k < |ins| ==> r[k] == StripInput(ins[k])
  {
    seq(|ins|, k requires 0 <= k < |ins| => StripInput(ins[k]))
  }

  /** The transaction as a peer that removes witnesses would send it. */
  function Strip(tx: Tx): Tx {
    tx.(inputs := StripInputs(tx.inputs))
  }

  // ----- how concatenations come apart -----

  lemma SplitAt(a: Bytes, b: Bytes, x: Bytes, y: Bytes)
    requires |a| == |b| && a + x == b + y
    ensures a == b && x == y
  {
    assert a == (a + x)[..|a|] && b == (b + y)[..|b|];
    assert x == (a + x)[|a|..] && y == (b + y)[|b|..];
  }

  lemma Regroup(p: Bytes, q: Bytes, x: Bytes)
    ensures (p + q) + x == p + (q + x)
  {
  }

  lemma Widths()
    ensures Pow256(2) == 0x1_0000 && Pow256(4) == 0x1_0000_0000 && Pow256(8) == USIZE
  {
    assert Pow256(1) == 256 && Pow256(2) == 256 * Pow256(1) && Pow256(3) == 256 * Pow256(2);
    assert Pow256(4) == 256 * Pow256(3) && Pow256(5) == 256 * Pow256(4) && Pow256(6) == 256 * Pow256(5);
    assert Pow256(7) == 256 * Pow256(6) && Pow256(8) == 256 * Pow256(7);
  }

  lemma InputRegroup(i: TxIn, x: Bytes)
    ensures InputBytes(i) + x ==
            i.prevTxid + (LittleEndian(i.prevVout, 4) + (VarBytes(i.scriptSig) + (LittleEndian(i.sequence, 4) + x)))
  {
    var s, q := VarBytes(i.scriptSig), LittleEndian(i.sequence, 4);
    Regroup(i.prevTxid, LittleEndian(i.prevVout, 4) + (s + q), x);
    Regroup(LittleEndian(i.prevVout, 4), s + q, x);
    Regroup(s, q, x);
  }

  lemma IoRegroup(tx: Tx, x: Bytes)
    ensures IoBytes(tx) + x ==
            CompactSize(|tx.inputs|) + (InputsBytes(tx.inputs) +
            (CompactSize(|tx.outputs|) + (OutputsBytes(tx.outputs) + x)))
  {
    var i, n, o := InputsBytes(tx.inputs), CompactSize(|tx.outputs|), OutputsBytes(tx.outputs);
    Regroup(CompactSize(|tx.inputs|), i + (n + o), x);
    Regroup(i, n + o, x);
    Regroup(n, o, x);
  }

  lemma SegregatedRegroup(tx: Tx, x: Bytes)
    requires Segregated(tx)
    ensures AfterVersion(tx) + x ==
            [0, 1] + (IoBytes(tx) + (WitnessesBytes(tx.inputs) + (LittleEndian(tx.lockTime, 4) + x)))
  {
    var i, w, l := IoBytes(tx), WitnessesBytes(tx.inputs), LittleEndian(tx.lockTime, 4);
    Regroup([0, 1], i + (w + l), x);
    Regroup(i, w + l, x);
    Regroup(w, l, x);
  }

  lemma InputsFromParts(a: seq<TxIn>, b: seq<TxIn>)
    requires |a| == |b| && forall k :: 0 <= k < |a| ==> StripInput(a[k]) == StripInput(b[k])
    requires forall k :: 0 <= k < |a| ==> a[k].stack == b[k].stack
    ensures a == b
  {
    forall k | 0 <= k < |a| ensures a[k] == b[k] {
      assert StripInput(a[k]) == StripInput(b[k]);
    }
  }
}
