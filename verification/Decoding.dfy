/** Reading a block back from its serialization, as it is done when a block that
    was served raw is needed parsed. */
module Decoding {
  import opened Encoding

  datatype Parsed<+T> = Malformed | Parsed(value: T) {
    predicate IsFailure() {
      Malformed?
    }

    function PropagateFailure<U>(): Parsed<U> {
      Malformed
    }

    function Extract(): T
      requires Parsed?
    {
      value
    }
  }

  // ----- readers: what was read, and the bytes left -----

  /** The number whose bytes these are, the least significant first. */
  function Number(b: Bytes): nat {
    if b == [] then 0 else b[0] as nat + 256 * Number(b[1..])
  }

  lemma {:induction false} NumberBound(b: Bytes)
    ensures Number(b) < Pow256(|b|)
  {
    if b != [] {
      NumberBound(b[1..]);
    }
  }

  function ReadBytes(n: nat, b: Bytes): Parsed<(Bytes, Bytes)> {
    if |b| < n then Malformed else Parsed((b[..n], b[n..]))
  }

  function ReadNumber(width: nat, b: Bytes): (r: Parsed<(nat, Bytes)>)
    ensures r.Parsed? ==> r.value.0 < Pow256(width)
  {
    var read :- ReadBytes(width, b);
    NumberBound(read.0);
    Parsed((Number(read.0), read.1))
  }

  function ReadU32(b: Bytes): Parsed<(U32, Bytes)> {
    Widths();
    var read :- ReadNumber(4, b);
    Parsed((read.0, read.1))
  }

  function ReadU64(b: Bytes): Parsed<(U64, Bytes)> {
    Widths();
    var read :- ReadNumber(8, b);
    Parsed((read.0, read.1))
  }

  function ReadDigest(b: Bytes): Parsed<(Digest, Bytes)> {
    var read :- ReadBytes(32, b);
    Parsed((read.0, read.1))
  }

  /** A count, which has to be written in the shortest way and to fit a vector. */
  function ReadCount(b: Bytes): (r: Parsed<(nat, Bytes)>)
    ensures r.Parsed? ==> r.value.0 < VEC_LIMIT
  {
    var first :- ReadBytes(1, b);
    var mark := first.0[0];
    if mark < 0xFD then Parsed((mark as nat, first.1)) else
      var read :- ReadNumber(if mark == 0xFD then 2 else if mark == 0xFE then 4 else 8, first.1);
      if read.0 < (if mark == 0xFD then 0xFD else if mark == 0xFE then 0x1_0000 else 0x1_0000_0000) then Malformed
      else if read.0 >= VEC_LIMIT then Malformed
      else Parsed(read)
  }

  function ReadVec(b: Bytes): Parsed<(Vec<byte>, Bytes)> {
    var count :- ReadCount(b);
    var read :- ReadBytes(count.0, count.1);
    Parsed((read.0, read.1))
  }

  /** So many of a kind, one after the other. */
  function ReadMany<T>(read: Bytes -> Parsed<(T, Bytes)>, n: nat, b: Bytes): (r: Parsed<(seq<T>, Bytes)>)
    ensures r.Parsed? ==> |r.value.0| == n
  {
    if n == 0 then Parsed(([], b)) else
      var first :- read(b);
      var others :- ReadMany(read, n - 1, first.1);
      Parsed(([first.0] + others.0, others.1))
  }

  function ReadInput(b: Bytes): Parsed<(TxIn, Bytes)> {
    var txid :- ReadDigest(b);
    var vout :- ReadU32(txid.1);
    var script :- ReadVec(vout.1);
    var sequence :- ReadU32(script.1);
    Parsed((TxIn(txid.0, vout.0, script.0, sequence.0, []), sequence.1))
  }

  function ReadOutput(b: Bytes): Parsed<(TxOut, Bytes)> {
    var value :- ReadU64(b);
    var script :- ReadVec(value.1);
    Parsed((TxOut(value.0, script.0), script.1))
  }

  function ReadStack(b: Bytes): Parsed<(Vec<Vec<byte>>, Bytes)> {
    var count :- ReadCount(b);
    var items :- ReadMany(ReadVec, count.0, count.1);
    Parsed((items.0, items.1))
  }

  /** A witness for each input. */
  function ReadStacks(ins: seq<TxIn>, b: Bytes): (r: Parsed<(seq<TxIn>, Bytes)>)
    ensures r.Parsed? ==> |r.value.0| == |ins|
  {
    if ins == [] then Parsed(([], b)) else
      var first :- ReadStack(b);
      var others :- ReadStacks(ins[1..], first.1);
      Parsed(([ins[0].(stack := first.0)] + others.0, others.1))
  }

  function ReadInputList(b: Bytes): Parsed<(Vec<TxIn>, Bytes)> {
    var count :- ReadCount(b);
    var ins :- ReadMany(ReadInput, count.0, count.1);
    Parsed((ins.0, ins.1))
  }

  function ReadOutputList(b: Bytes): Parsed<(Vec<TxOut>, Bytes)> {
    var count :- ReadCount(b);
    var outs :- ReadMany(ReadOutput, count.0, count.1);
    Parsed((outs.0, outs.1))
  }

  /** After the version: no inputs means the marker, which the flag 1 has to follow,
      and with the flag some input has to have a witness, if there is one. */
  function ReadAfterVersion(version: U32, b: Bytes): Parsed<(Tx, Bytes)> {
    var ins :- ReadInputList(b);
    if ins.0 != [] then
      var outs :- ReadOutputList(ins.1);
      var lockTime :- ReadU32(outs.1);
      Parsed((Tx(version, ins.0, outs.0, lockTime.0), lockTime.1))
    else
      var flag :- ReadBytes(1, ins.1);
      if flag.0 != [1] then Malformed else
        var bare :- ReadInputList(flag.1);
        var outs :- ReadOutputList(bare.1);
        var full :- ReadStacks(bare.0, outs.1);
        var lockTime :- ReadU32(full.1);
        if full.0 != [] && forall i :: 0 <= i < |full.0| ==> full.0[i].stack == [] then Malformed
        else Parsed((Tx(version, full.0, outs.0, lockTime.0), lockTime.1))
  }

  function ReadTx(b: Bytes): Parsed<(Tx, Bytes)> {
    var version :- ReadU32(b);
    ReadAfterVersion(version.0, version.1)
  }

  function ReadHeader(b: Bytes): Parsed<(Header, Bytes)> {
    var version :- ReadU32(b);
    var prevBlock :- ReadDigest(version.1);
    var merkleRoot :- ReadDigest(prevBlock.1);
    var time :- ReadU32(merkleRoot.1);
    var bits :- ReadU32(time.1);
    var nonce :- ReadU32(bits.1);
    Parsed((Header(version.0, prevBlock.0, merkleRoot.0, time.0, bits.0, nonce.0), nonce.1))
  }

  function ReadBlock(b: Bytes): Parsed<(Block, Bytes)> {
    var header :- ReadHeader(b);
    var count :- ReadCount(header.1);
    var txs :- ReadMany(ReadTx, count.0, count.1);
    Parsed((Block(header.0, txs.0), txs.1))
  }

  // ----- every reader undoes its writer -----

  lemma {:induction false} ManyBack<T(!new)>(read: Bytes -> Parsed<(T, Bytes)>, write: T -> Bytes, xs: seq<T>,
                                             rest: Bytes)
    requires forall x, y :: x in xs ==> read(write(x) + y) == Parsed((x, y))
    ensures ReadMany(read, |xs|, Concat(write, xs) + rest) == Parsed((xs, rest))
  {
    if xs == [] {
      assert [] + rest == rest;
    } else {
      Regroup(write(xs[0]), Concat(write, xs[1..]), rest);
      ManyBack(read, write, xs[1..], rest);
      assert xs == [xs[0]] + xs[1..];
    }
  }

  lemma {:induction false} ManyExact<T>(read: Bytes -> Parsed<(T, Bytes)>, write: T -> Bytes, n: nat, b: Bytes)
    requires forall x :: read(x).Parsed? ==> x == write(read(x).value.0) + read(x).value.1
    ensures var r := ReadMany(read, n, b); r.Parsed? ==> b == Concat(write, r.value.0) + r.value.1
  {
    if n == 0 {
      assert [] + b == b;
    } else if ReadMany(read, n, b).Parsed? {
      var first := read(b).value;
      ManyExact(read, write, n - 1, first.1);
      var others := ReadMany(read, n - 1, first.1).value;
      assert ([first.0] + others.0)[1..] == others.0;
      Regroup(write(first.0), Concat(write, others.0), others.1);
    }
  }

  lemma BytesBack(a: Bytes, rest: Bytes)
    ensures ReadBytes(|a|, a + rest) == Parsed((a, rest))
  {
    assert (a + rest)[..|a|] == a && (a + rest)[|a|..] == rest;
  }

  lemma {:induction false} NumberOfLittleEndian(n: nat, width: nat)
    requires n < Pow256(width)
    ensures Number(LittleEndian(n, width)) == n
  {
    if width > 0 {
      var b := LittleEndian(n, width);
      NumberOfLittleEndian(n / 256, width - 1);
      assert b[1..] == LittleEndian(n / 256, width - 1);
    }
  }

  lemma NumberBack(n: nat, width: nat, rest: Bytes)
    requires n < Pow256(width)
    ensures ReadNumber(width, LittleEndian(n, width) + rest) == Parsed((n, rest))
  {
    NumberOfLittleEndian(n, width);
    BytesBack(LittleEndian(n, width), rest);
  }

  lemma U32Back(n: U32, rest: Bytes)
    ensures ReadU32(LittleEndian(n, 4) + rest) == Parsed((n, rest))
  {
    Widths();
    NumberBack(n, 4, rest);
  }

  lemma U64Back(n: U64, rest: Bytes)
    ensures ReadU64(LittleEndian(n, 8) + rest) == Parsed((n, rest))
  {
    Widths();
    NumberBack(n, 8, rest);
  }

  lemma DigestBack(d: Digest, rest: Bytes)
    ensures ReadDigest(d + rest) == Parsed((d, rest))
  {
    BytesBack(d, rest);
  }

  lemma CountBack(n: nat, rest: Bytes)
    requires n < VEC_LIMIT
    ensures ReadCount(CompactSize(n) + rest) == Parsed((n, rest))
  {
    Widths();
    var b := CompactSize(n);
    if n < 0xFD {
      BytesBack(b, rest);
    } else {
      var width := if n <= 0xFFFF then 2 else if n <= 0xFFFF_FFFF then 4 else 8;
      assert b == [b[0]] + LittleEndian(n, width);
      Regroup([b[0]], LittleEndian(n, width), rest);
      BytesBack([b[0]], LittleEndian(n, width) + rest);
      NumberBack(n, width, rest);
    }
  }

  lemma VecBack(v: Vec<byte>, rest: Bytes)
    ensures ReadVec(VarBytes(v) + rest) == Parsed((v, rest))
  {
    Regroup(CompactSize(|v|), v, rest);
    CountBack(|v|, v + rest);
    BytesBack(v, rest);
  }

  lemma InputBack(i: TxIn, rest: Bytes)
    ensures ReadInput(InputBytes(i) + rest) == Parsed((StripInput(i), rest))
  {
    var a, c, d := LittleEndian(i.prevVout, 4), VarBytes(i.scriptSig), LittleEndian(i.sequence, 4);
    InputRegroup(i, rest);
    DigestBack(i.prevTxid, a + (c + (d + rest)));
    U32Back(i.prevVout, c + (d + rest));
    VecBack(i.scriptSig, d + rest);
    U32Back(i.sequence, rest);
  }

  lemma StripCons(ins: seq<TxIn>)
    requires ins != []
    ensures StripInputs(ins) == [StripInput(ins[0])] + StripInputs(ins[1..])
  {
  }

  lemma InputsBack(ins: seq<TxIn>, rest: Bytes)
    ensures ReadMany(ReadInput, |ins|, InputsBytes(ins) + rest) == Parsed((StripInputs(ins), rest))
  {
    var bare := StripInputs(ins);
    StrippedTwice(ins);
    InputsBytesStripped(ins, bare);
    forall i, y | i in bare ensures ReadInput(InputBytes(i) + y) == Parsed((i, y)) {
      InputBack(i, y);
    }
    ManyBack(ReadInput, InputBytes, bare, rest);
  }

  lemma StrippedTwice(ins: seq<TxIn>)
    ensures StripInputs(StripInputs(ins)) == StripInputs(ins)
    ensures forall i :: i in StripInputs(ins) ==> StripInput(i) == i
  {
  }

  lemma OutputBack(o: TxOut, rest: Bytes)
    ensures ReadOutput(OutputBytes(o) + rest) == Parsed((o, rest))
  {
    Regroup(LittleEndian(o.value, 8), VarBytes(o.scriptPubkey), rest);
    U64Back(o.value, VarBytes(o.scriptPubkey) + rest);
    VecBack(o.scriptPubkey, rest);
  }

  lemma StackBack(w: Vec<Vec<byte>>, rest: Bytes)
    ensures ReadStack(WitnessBytes(w) + rest) == Parsed((w, rest))
  {
    Regroup(CompactSize(|w|), ItemsBytes(w), rest);
    CountBack(|w|, ItemsBytes(w) + rest);
    forall v: Vec<byte>, y ensures ReadVec(ItemBytes(v) + y) == Parsed((v, y)) {
      VecBack(v, y);
    }
    ManyBack(ReadVec, ItemBytes, w, rest);
  }

  lemma {:induction false} StacksBack(ins: seq<TxIn>, rest: Bytes)
    ensures ReadStacks(StripInputs(ins), WitnessesBytes(ins) + rest) == Parsed((ins, rest))
  {
    if ins == [] {
      assert [] + rest == rest;
    } else {
      Regroup(WitnessBytes(ins[0].stack), WitnessesBytes(ins[1..]), rest);
      StackBack(ins[0].stack, WitnessesBytes(ins[1..]) + rest);
      StacksBack(ins[1..], rest);
      assert StripInputs(ins)[1..] == StripInputs(ins[1..]);
      assert ins == [ins[0]] + ins[1..];
    }
  }

  lemma InputListBack(ins: Vec<TxIn>, rest: Bytes)
    ensures ReadInputList(CompactSize(|ins|) + (InputsBytes(ins) + rest)) == Parsed((StripInputs(ins), rest))
  {
    CountBack(|ins|, InputsBytes(ins) + rest);
    InputsBack(ins, rest);
  }

  lemma OutputListBack(outs: Vec<TxOut>, rest: Bytes)
    ensures ReadOutputList(CompactSize(|outs|) + (OutputsBytes(outs) + rest)) == Parsed((outs, rest))
  {
    CountBack(|outs|, OutputsBytes(outs) + rest);
    forall o: TxOut, y ensures ReadOutput(OutputBytes(o) + y) == Parsed((o, y)) {
      OutputBack(o, y);
    }
    ManyBack(ReadOutput, OutputBytes, outs, rest);
  }

  lemma PlainBack(tx: Tx, rest: Bytes)
    requires !Segregated(tx)
    ensures ReadAfterVersion(tx.version, AfterVersion(tx) + rest) == Parsed((tx, rest))
  {
    var lock := LittleEndian(tx.lockTime, 4);
    Regroup(IoBytes(tx), lock, rest);
    IoRegroup(tx, lock + rest);
    InputListBack(tx.inputs, CompactSize(|tx.outputs|) + (OutputsBytes(tx.outputs) + (lock + rest)));
    OutputListBack(tx.outputs, lock + rest);
    U32Back(tx.lockTime, rest);
    assert StripInputs(tx.inputs) == tx.inputs;
  }

  lemma MarkerBack(rest: Bytes)
    ensures ReadInputList([0, 1] + rest) == Parsed(([], [1] + rest)) && ReadBytes(1, [1] + rest) == Parsed(([1], rest))
  {
    assert [0, 1] + rest == CompactSize(0) + (InputsBytes([]) + ([1] + rest));
    InputListBack([], [1] + rest);
    BytesBack([1], rest);
  }

  lemma SegregatedBack(tx: Tx, rest: Bytes)
    requires Segregated(tx)
    ensures ReadAfterVersion(tx.version, AfterVersion(tx) + rest) == Parsed((tx, rest))
  {
    var lock := LittleEndian(tx.lockTime, 4);
    var wit := WitnessesBytes(tx.inputs);
    SegregatedRegroup(tx, rest);
    MarkerBack(IoBytes(tx) + (wit + (lock + rest)));
    IoRegroup(tx, wit + (lock + rest));
    InputListBack(tx.inputs, CompactSize(|tx.outputs|) + (OutputsBytes(tx.outputs) + (wit + (lock + rest))));
    OutputListBack(tx.outputs, wit + (lock + rest));
    StacksBack(tx.inputs, lock + rest);
    U32Back(tx.lockTime, rest);
  }

  /** A transaction is read back from its bytes, whatever follows. */
  lemma TxBack(tx: Tx, rest: Bytes)
    ensures ReadTx(FullBytes(tx) + rest) == Parsed((tx, rest))
  {
    Regroup(LittleEndian(tx.version, 4), AfterVersion(tx), rest);
    U32Back(tx.version, AfterVersion(tx) + rest);
    if Segregated(tx) {
      SegregatedBack(tx, rest);
    } else {
      PlainBack(tx, rest);
    }
  }

  lemma HeaderRegroup(hd: Header, rest: Bytes)
    ensures HeaderBytes(hd) + rest ==
            LittleEndian(hd.version, 4) + (hd.prevBlock + (hd.merkleRoot +
            (LittleEndian(hd.time, 4) + (LittleEndian(hd.bits, 4) + (LittleEndian(hd.nonce, 4) + rest)))))
  {
  }

  lemma HeaderBack(hd: Header, rest: Bytes)
    ensures ReadHeader(HeaderBytes(hd) + rest) == Parsed((hd, rest))
  {
    var a3 := LittleEndian(hd.nonce, 4) + rest;
    var a2 := LittleEndian(hd.bits, 4) + a3;
    var a1 := LittleEndian(hd.time, 4) + a2;
    var a0 := hd.prevBlock + (hd.merkleRoot + a1);
    HeaderRegroup(hd, rest);
    U32Back(hd.version, a0);
    DigestBack(hd.prevBlock, hd.merkleRoot + a1);
    DigestBack(hd.merkleRoot, a1);
    U32Back(hd.time, a2);
    U32Back(hd.bits, a3);
    U32Back(hd.nonce, rest);
  }

  // ----- and reads nothing else -----

  lemma {:induction false} LittleEndianOfNumber(b: Bytes)
    ensures LittleEndian(Number(b), |b|) == b
  {
    if b != [] {
      LittleEndianOfNumber(b[1..]);
      assert Number(b) % 256 == b[0] as nat && Number(b) / 256 == Number(b[1..]);
      assert b == [b[0]] + b[1..];
    }
  }

  lemma NumberExact(width: nat, b: Bytes)
    ensures var r := ReadNumber(width, b); r.Parsed? ==> b == LittleEndian(r.value.0, width) + r.value.1
  {
    if |b| >= width {
      LittleEndianOfNumber(b[..width]);
      assert b == b[..width] + b[width..];
    }
  }

  lemma CountExact(b: Bytes)
    ensures var r := ReadCount(b); r.Parsed? ==> b == CompactSize(r.value.0) + r.value.1
  {
    Widths();
    if ReadCount(b).Parsed? {
      var mark, others := b[0], b[1..];
      assert b[..1] == [mark] && b == [mark] + others;
      if mark >= 0xFD {
        var width := if mark == 0xFD then 2 else if mark == 0xFE then 4 else 8;
        NumberExact(width, others);
        var r := ReadNumber(width, others).value;
        Regroup([mark], LittleEndian(r.0, width), r.1);
      }
    }
  }

  lemma VecExact(b: Bytes)
    ensures var r := ReadVec(b); r.Parsed? ==> b == VarBytes(r.value.0) + r.value.1
  {
    if ReadVec(b).Parsed? {
      CountExact(b);
      var count, r := ReadCount(b).value, ReadVec(b).value;
      assert count.1 == r.0 + r.1;
      Regroup(CompactSize(count.0), r.0, r.1);
    }
  }

  lemma InputExact(b: Bytes)
    ensures var r := ReadInput(b); r.Parsed? ==> b == InputBytes(r.value.0) + r.value.1 && r.value.0.stack == []
  {
    if ReadInput(b).Parsed? {
      var txid := ReadDigest(b).value;
      assert b == txid.0 + txid.1;
      NumberExact(4, txid.1);
      var vout := ReadU32(txid.1).value;
      VecExact(vout.1);
      var script := ReadVec(vout.1).value;
      NumberExact(4, script.1);
      InputRegroup(ReadInput(b).value.0, ReadInput(b).value.1);
    }
  }

  lemma OutputExact(b: Bytes)
    ensures var r := ReadOutput(b); r.Parsed? ==> b == OutputBytes(r.value.0) + r.value.1
  {
    if ReadOutput(b).Parsed? {
      NumberExact(8, b);
      var value := ReadU64(b).value;
      VecExact(value.1);
      var r := ReadOutput(b).value;
      Regroup(LittleEndian(value.0, 8), VarBytes(r.0.scriptPubkey), r.1);
    }
  }

  lemma StackExact(b: Bytes)
    ensures var r := ReadStack(b); r.Parsed? ==> b == WitnessBytes(r.value.0) + r.value.1
  {
    if ReadStack(b).Parsed? {
      CountExact(b);
      var count := ReadCount(b).value;
      forall x ensures ReadVec(x).Parsed? ==> x == ItemBytes(ReadVec(x).value.0) + ReadVec(x).value.1 {
        VecExact(x);
      }
      ManyExact(ReadVec, ItemBytes, count.0, count.1);
      Regroup(CompactSize(count.0), ItemsBytes(ReadStack(b).value.0), ReadStack(b).value.1);
    }
  }

  lemma {:induction false} StacksExact(ins: seq<TxIn>, b: Bytes)
    ensures var r := ReadStacks(ins, b);
            r.Parsed? ==> b == WitnessesBytes(r.value.0) + r.value.1 && StripInputs(r.value.0) == StripInputs(ins)
  {
    if ins != [] && ReadStacks(ins, b).Parsed? {
      StackExact(b);
      var first := ReadStack(b).value;
      StacksExact(ins[1..], first.1);
      var others := ReadStacks(ins[1..], first.1).value;
      var full := [ins[0].(stack := first.0)] + others.0;
      assert full[1..] == others.0;
      Regroup(WitnessBytes(first.0), WitnessesBytes(others.0), others.1);
      StripCons(full);
      StripCons(ins);
    }
  }

  /** Inputs are read without witnesses. */
  lemma {:induction false} BareInputs(n: nat, b: Bytes)
    ensures var r := ReadMany(ReadInput, n, b); r.Parsed? ==> StripInputs(r.value.0) == r.value.0
  {
    if n > 0 && ReadMany(ReadInput, n, b).Parsed? {
      var first := ReadInput(b).value;
      BareInputs(n - 1, first.1);
      var others := ReadMany(ReadInput, n - 1, first.1).value;
      StripCons([first.0] + others.0);
      assert ([first.0] + others.0)[1..] == others.0;
    }
  }

  lemma InputListExact(b: Bytes)
    ensures var r := ReadInputList(b);
            r.Parsed? ==>
              && b == CompactSize(|r.value.0|) + (InputsBytes(r.value.0) + r.value.1)
              && StripInputs(r.value.0) == r.value.0
  {
    if ReadInputList(b).Parsed? {
      CountExact(b);
      var count := ReadCount(b).value;
      forall x ensures ReadInput(x).Parsed? ==> x == InputBytes(ReadInput(x).value.0) + ReadInput(x).value.1 {
        InputExact(x);
      }
      ManyExact(ReadInput, InputBytes, count.0, count.1);
      BareInputs(count.0, count.1);
    }
  }

  lemma OutputListExact(b: Bytes)
    ensures var r := ReadOutputList(b);
            r.Parsed? ==> b == CompactSize(|r.value.0|) + (OutputsBytes(r.value.0) + r.value.1)
  {
    if ReadOutputList(b).Parsed? {
      CountExact(b);
      var count := ReadCount(b).value;
      forall x ensures ReadOutput(x).Parsed? ==> x == OutputBytes(ReadOutput(x).value.0) + ReadOutput(x).value.1 {
        OutputExact(x);
      }
      ManyExact(ReadOutput, OutputBytes, count.0, count.1);
    }
  }

  /** The bytes of inputs and outputs do not depend on witnesses. */
  lemma {:induction false} InputsBytesStripped(a: seq<TxIn>, b: seq<TxIn>)
    requires StripInputs(a) == StripInputs(b)
    ensures InputsBytes(a) == InputsBytes(b)
  {
    if a != [] {
      assert StripInput(a[0]) == StripInputs(a)[0] == StripInputs(b)[0] == StripInput(b[0]);
      StripCons(a);
      StripCons(b);
      assert StripInputs(a)[1..] == StripInputs(a[1..]) && StripInputs(b)[1..] == StripInputs(b[1..]);
      InputsBytesStripped(a[1..], b[1..]);
    }
  }

  lemma PlainExact(version: U32, b: Bytes)
    requires ReadInputList(b).Parsed? && ReadInputList(b).value.0 != []
    ensures var r := ReadAfterVersion(version, b);
            r.Parsed? ==> b == AfterVersion(r.value.0) + r.value.1 && r.value.0.version == version
  {
    if ReadAfterVersion(version, b).Parsed? {
      InputListExact(b);
      var ins := ReadInputList(b).value;
      OutputListExact(ins.1);
      var outs := ReadOutputList(ins.1).value;
      NumberExact(4, outs.1);
      var r := ReadAfterVersion(version, b).value;
      forall i | 0 <= i < |ins.0| ensures ins.0[i].stack == [] {
        assert StripInputs(ins.0)[i] == ins.0[i];
      }
      Regroup(IoBytes(r.0), LittleEndian(r.0.lockTime, 4), r.1);
      IoRegroup(r.0, LittleEndian(r.0.lockTime, 4) + r.1);
    }
  }

  lemma MarkerExact(b: Bytes)
    requires ReadInputList(b).Parsed? && ReadInputList(b).value.0 == []
    ensures var flag := ReadBytes(1, ReadInputList(b).value.1);
            flag.Parsed? && flag.value.0 == [1] ==> b == [0, 1] + flag.value.1
  {
    InputListExact(b);
    var others := ReadInputList(b).value.1;
    assert b == [0] + others;
    if |others| > 0 {
      assert others == others[..1] + others[1..];
    }
  }

  lemma SegregatedExact(version: U32, b: Bytes)
    requires ReadInputList(b).Parsed? && ReadInputList(b).value.0 == []
    ensures var r := ReadAfterVersion(version, b);
            r.Parsed? ==> b == AfterVersion(r.value.0) + r.value.1 && r.value.0.version == version
  {
    if ReadAfterVersion(version, b).Parsed? {
      MarkerExact(b);
      var body := ReadBytes(1, ReadInputList(b).value.1).value.1;
      InputListExact(body);
      var bare := ReadInputList(body).value;
      OutputListExact(bare.1);
      var outs := ReadOutputList(bare.1).value;
      StacksExact(bare.0, outs.1);
      var full := ReadStacks(bare.0, outs.1).value;
      NumberExact(4, full.1);
      InputsBytesStripped(full.0, bare.0);
      var r := ReadAfterVersion(version, b).value;
      IoRegroup(r.0, WitnessesBytes(r.0.inputs) + (LittleEndian(r.0.lockTime, 4) + r.1));
      SegregatedRegroup(r.0, r.1);
    }
  }

  /** Whatever is read as a transaction is its encoding and what follows. */
  lemma TxExact(b: Bytes)
    ensures var r := ReadTx(b); r.Parsed? ==> b == FullBytes(r.value.0) + r.value.1
  {
    if ReadTx(b).Parsed? {
      NumberExact(4, b);
      var version := ReadU32(b).value;
      if ReadInputList(version.1).value.0 != [] {
        PlainExact(version.0, version.1);
      } else {
        SegregatedExact(version.0, version.1);
      }
      var r := ReadTx(b).value;
      Regroup(LittleEndian(version.0, 4), AfterVersion(r.0), r.1);
    }
  }

  lemma HeaderExact(b: Bytes)
    ensures var r := ReadHeader(b); r.Parsed? ==> b == HeaderBytes(r.value.0) + r.value.1
  {
    if ReadHeader(b).Parsed? {
      NumberExact(4, b);
      var version := ReadU32(b).value;
      var prev := ReadDigest(version.1).value;
      assert version.1 == prev.0 + prev.1;
      var root := ReadDigest(prev.1).value;
      assert prev.1 == root.0 + root.1;
      NumberExact(4, root.1);
      var time := ReadU32(root.1).value;
      NumberExact(4, time.1);
      var bits := ReadU32(time.1).value;
      NumberExact(4, bits.1);
      HeaderRegroup(ReadHeader(b).value.0, ReadHeader(b).value.1);
    }
  }

  /** A byte string is read as a block exactly when it is the encoding of that block
      and what is left over. */
  lemma ReadBlockIff(bytes: Bytes, b: Block, rest: Bytes)
    ensures ReadBlock(bytes) == Parsed((b, rest)) <==> bytes == BlockBytes(b) + rest
  {
    var body := CompactSize(|b.txs|) + TxsBytes(b.txs);
    Regroup(HeaderBytes(b.header), body, rest);
    Regroup(CompactSize(|b.txs|), TxsBytes(b.txs), rest);
    if ReadBlock(bytes) == Parsed((b, rest)) {
      HeaderExact(bytes);
      var header := ReadHeader(bytes).value;
      CountExact(header.1);
      var count := ReadCount(header.1).value;
      forall x ensures ReadTx(x).Parsed? ==> x == FullBytes(ReadTx(x).value.0) + ReadTx(x).value.1 {
        TxExact(x);
      }
      ManyExact(ReadTx, FullBytes, count.0, count.1);
    }
    if bytes == BlockBytes(b) + rest {
      HeaderBack(b.header, body + rest);
      CountBack(|b.txs|, TxsBytes(b.txs) + rest);
      forall tx: Tx, y ensures ReadTx(FullBytes(tx) + y) == Parsed((tx, y)) {
        TxBack(tx, y);
      }
      ManyBack(ReadTx, FullBytes, b.txs, rest);
    }
  }

  // ----- so the bytes determine what was written -----

  /** A transaction can be read back from the front of any byte string it starts. */
  lemma FullReadable(a: Tx, b: Tx, x: Bytes, y: Bytes)
    requires FullBytes(a) + x == FullBytes(b) + y
    ensures a == b && x == y
  {
    TxBack(a, x);
    TxBack(b, y);
  }

  /** The reader of a form without witnesses. */
  function ReadLegacy(b: Bytes): Parsed<(Tx, Bytes)> {
    var version :- ReadU32(b);
    var ins :- ReadInputList(version.1);
    var outs :- ReadOutputList(ins.1);
    var lockTime :- ReadU32(outs.1);
    Parsed((Tx(version.0, ins.0, outs.0, lockTime.0), lockTime.1))
  }

  lemma LegacyBack(tx: Tx)
    ensures ReadLegacy(LegacyBytes(tx)) == Parsed((Strip(tx), []))
  {
    var lock := LittleEndian(tx.lockTime, 4);
    U32Back(tx.version, IoBytes(tx) + lock);
    IoRegroup(tx, lock);
    InputListBack(tx.inputs, CompactSize(|tx.outputs|) + (OutputsBytes(tx.outputs) + lock));
    OutputListBack(tx.outputs, lock);
    assert lock == lock + [];
    U32Back(tx.lockTime, []);
  }

  /** A txid commits to everything but the witnesses. */
  lemma LegacyReadable(a: Tx, b: Tx)
    requires LegacyBytes(a) == LegacyBytes(b)
    ensures Strip(a) == Strip(b)
  {
    LegacyBack(a);
    LegacyBack(b);
  }

  lemma HeaderReadable(a: Header, b: Header)
    requires HeaderBytes(a) == HeaderBytes(b)
    ensures a == b
  {
    HeaderBack(a, []);
    HeaderBack(b, []);
  }

  /** The bytes kept in the block cache decode to one block only. */
  lemma BlockReadable(a: Block, b: Block)
    requires BlockBytes(a) == BlockBytes(b)
    ensures a == b
  {
    assert BlockBytes(a) == BlockBytes(a) + [];
    ReadBlockIff(BlockBytes(a), a, []);
    ReadBlockIff(BlockBytes(b), b, []);
  }
}
