/** The contract that the transport relies on for its forward error correction contexts (fec.h),
    and a single-parity XOR code that meets it. */
module ErasureCode {
  import opened Bytes

  datatype FecKind = ReedSolomon | RaptorQ

  /** The parameters a context is created with: kind, data symbols, parity symbols, symbol size. */
  datatype FecParams = FecParams(kind: FecKind, k: nat, p: nat, t: nat)

  /** A family of codes: whether a context can be created, the parity it computes, and what it recovers.
      Decoding receives every block, including whatever bytes lie in the missing ones. */
  datatype Code = Code(
    creates: FecParams -> bool,
    encode: (FecParams, seq<Block>) -> seq<Block>,
    decode: (FecParams, seq<Block>, seq<bool>) -> Option<seq<Block>>)

  predicate Shaped(blocks: seq<Block>, n: nat, t: nat) {
    |blocks| == n && forall i :: 0 <= i < n ==> |blocks[i]| == t
  }

  /** The parity blocks a sender transmits: zeroed memory, overwritten when a context exists. */
  function Parity(code: Code, f: FecParams, data: seq<Block>): (r: seq<Block>)
  {
    if f.p > 0 && code.creates(f) then code.encode(f, data) else seq(f.p, _ => Zeros(f.t))
  }

  function Codeword(code: Code, f: FecParams, data: seq<Block>): (r: seq<Block>)
  {
    data + Parity(code, f, data)
  }

  /** `blocks` carries the codeword of `data` wherever it is not missing, in at least k places. */
  ghost predicate Agrees(code: Code, f: FecParams, data: seq<Block>, blocks: seq<Block>, missing: seq<bool>) {
    && f.p > 0 && code.creates(f)
    && Shaped(data, f.k, f.t) && Shaped(blocks, f.k + f.p, f.t)
    && |missing| == f.k + f.p
    && |Codeword(code, f, data)| == f.k + f.p
    && (forall i :: 0 <= i < f.k + f.p && !missing[i] ==> blocks[i] == Codeword(code, f, data)[i])
    && Count(Negate(missing)) >= f.k
  }

  ghost predicate EncodeShape(code: Code) {
    forall f: FecParams, data :: Shaped(data, f.k, f.t) && code.creates(f) ==> Shaped(code.encode(f, data), f.p, f.t)
  }

  ghost predicate DecodeShape(code: Code) {
    forall f: FecParams, blocks, missing ::
      code.decode(f, blocks, missing).Some? ==> Shaped(code.decode(f, blocks, missing).value, f.k, f.t)
  }

  /** Whatever a decoder returns from codeword symbols is the data, whatever the missing blocks hold. */
  ghost predicate DecodeSound(code: Code) {
    forall f, data, blocks, missing :: Agrees(code, f, data, blocks, missing) ==>
      code.decode(f, blocks, missing) in {None, Some(data)}
  }

  ghost predicate Lawful(code: Code) {
    EncodeShape(code) && DecodeShape(code) && DecodeSound(code)
  }

  /** Any k distinct symbols suffice (the Reed-Solomon guarantee). */
  ghost predicate AnyK(code: Code, f: FecParams) {
    forall data, blocks, missing :: Agrees(code, f, data, blocks, missing) ==>
      code.decode(f, blocks, missing).Some?
  }

  lemma CodewordShape(code: Code, f: FecParams, data: seq<Block>)
    requires Lawful(code) && Shaped(data, f.k, f.t)
    ensures Shaped(Codeword(code, f, data), f.k + f.p, f.t)
  {
    assert Shaped(Parity(code, f, data), f.p, f.t);
  }

  // ----- A concrete instance: one XOR parity symbol -----

  function Xor(a: nat, b: nat): (r: nat)
  {
    if a == 0 && b == 0 then 0
    else (if a % 2 == b % 2 then 0 else 1) + 2 * Xor(a / 2, b / 2)
  }

  lemma XorCommutes(a: nat, b: nat)
    ensures Xor(a, b) == Xor(b, a)
  {}

  lemma XorZero(a: nat)
    ensures Xor(a, 0) == a
  {}

  lemma XorSelf(a: nat)
    ensures Xor(a, a) == 0
  {}

  lemma {:induction false} XorAssociates(a: nat, b: nat, c: nat)
    ensures Xor(Xor(a, b), c) == Xor(a, Xor(b, c))
    decreases a + b + c
  {
    if a == 0 && b == 0 && c == 0 {
    } else {
      XorAssociates(a / 2, b / 2, c / 2);
      XorHalves(a, b);
      XorHalves(b, c);
      XorHalves(Xor(a, b), c);
      XorHalves(a, Xor(b, c));
    }
  }

  lemma XorHalves(a: nat, b: nat)
    ensures Xor(a, b) / 2 == Xor(a / 2, b / 2)
    ensures Xor(a, b) % 2 == if a % 2 == b % 2 then 0 else 1
  {}

  lemma {:induction false} XorBound(a: nat, b: nat, bits: nat, limit: nat)
    requires a < limit && b < limit
    requires limit == Power2(bits)
    ensures Xor(a, b) < limit
  {
    if bits > 0 {
      XorBound(a / 2, b / 2, bits - 1, limit / 2);
    }
  }

  function Power2(n: nat): nat { if n == 0 then 1 else 2 * Power2(n - 1) }

  function XorByte(a: byte, b: byte): (r: byte)
  {
    assert Xor(a, b) < 256 by {
      assert Power2(4) == 16;
      assert Power2(8) == 256;
      XorBound(a, b, 8, 256);
    }
    Xor(a, b)
  }

  /** XOR of the bytes at offset c of every block. */
  function Column(blocks: seq<Block>, c: nat): (r: byte)
    requires forall i :: 0 <= i < |blocks| ==> c < |blocks[i]|
  {
    if blocks == [] then 0
    else XorByte(Column(blocks[..|blocks| - 1], c), blocks[|blocks| - 1][c])
  }

  /** Replacing one block exchanges its contribution to the column. */
  lemma {:induction false} ColumnUpdate(blocks: seq<Block>, j: nat, b: Block, c: nat)
    requires forall i :: 0 <= i < |blocks| ==> c < |blocks[i]|
    requires j < |blocks| && c < |b|
    ensures Column(blocks[j := b], c) == XorByte(XorByte(Column(blocks, c), blocks[j][c]), b[c])
  {
    var n := |blocks| - 1;
    var init, last := blocks[..n], blocks[n][c];
    var after := blocks[j := b];
    if j == n {
      assert after[..n] == init;
      var x := Column(init, c);
      XorAssociates(x, last, last);
      XorSelf(last);
      XorZero(x);
    } else {
      assert after[..n] == init[j := b];
      ColumnUpdate(init, j, b, c);
      var x, old_, new_ := Column(init, c), blocks[j][c], b[c];
      calc {
        Xor(Xor(Xor(x, old_), new_), last);
      ==  { XorAssociates(Xor(x, old_), new_, last); XorCommutes(new_, last);
            XorAssociates(Xor(x, old_), last, new_); }
        Xor(Xor(Xor(x, old_), last), new_);
      ==  { XorAssociates(x, old_, last); XorCommutes(old_, last); XorAssociates(x, last, old_); }
        Xor(Xor(Xor(x, last), old_), new_);
      }
    }
  }

  function XorBlocks(blocks: seq<Block>, t: nat): (r: Block)
    requires Shaped(blocks, |blocks|, t)
    ensures |r| == t
  {
    seq(t, c requires 0 <= c < t => Column(blocks, c))
  }

  /** The first missing index below n, or n. */
  function FirstMissing(missing: seq<bool>, n: nat): (j: nat)
    requires n <= |missing|
    ensures j <= n && (j < n ==> missing[j])
    ensures forall i :: 0 <= i < j ==> !missing[i]
  {
    if n == 0 then 0
    else
      var j := FirstMissing(missing, n - 1);
      if j < n - 1 then j else if missing[n - 1] then n - 1 else n
  }

  /** Puts the parity symbol in place of the missing block and XORs everything. */
  function XorRecover(f: FecParams, blocks: seq<Block>, missing: seq<bool>): (r: Option<seq<Block>>)
  {
    if !Shaped(blocks, f.k + f.p, f.t) || |missing| != f.k + f.p || f.p != 1 || Count(Negate(missing)) < f.k then None
    else
      var j := FirstMissing(missing, f.k);
      var data := blocks[..f.k];
      Some(if j == f.k then data else data[j := XorBlocks(data[j := blocks[f.k]], f.t)])
  }

  function XorCode(): (code: Code)
  {
    Code(
      (f: FecParams) => f.p == 1,
      (f: FecParams, data: seq<Block>) =>
        if Shaped(data, f.k, f.t) then [XorBlocks(data, f.t)] else [],
      (f: FecParams, blocks: seq<Block>, missing: seq<bool>) => XorRecover(f, blocks, missing))
  }

  /** With one symbol lost out of k + 1, every other symbol is present. */
  lemma OneMissing(missing: seq<bool>, j: nat)
    requires j < |missing| && missing[j]
    requires Count(Negate(missing)) >= |missing| - 1
    ensures forall i :: 0 <= i < |missing| && i != j ==> !missing[i]
  {
    var present := Negate(missing);
    CountSet(present, j);
    var filled := present[j := true];
    CountFull(filled);
    assert forall i :: 0 <= i < |missing| && i != j ==> filled[i] == !missing[i];
  }

  lemma XorRecovers(f: FecParams, data: seq<Block>, blocks: seq<Block>, missing: seq<bool>)
    requires Agrees(XorCode(), f, data, blocks, missing)
    ensures XorRecover(f, blocks, missing) == Some(data)
  {
    var j := FirstMissing(missing, f.k);
    var got := blocks[..f.k];
    var word := Codeword(XorCode(), f, data);
    if j == f.k {
      assert forall i :: 0 <= i < f.k ==> got[i] == word[i];
      assert got == data;
    } else {
      OneMissing(missing, j);
      var parity := XorBlocks(data, f.t);
      assert blocks[f.k] == parity;
      var patched := got[j := parity];
      assert patched == data[j := parity] by {
        assert forall i :: 0 <= i < f.k && i != j ==> got[i] == word[i];
      }
      forall c | 0 <= c < f.t
        ensures Column(patched, c) == data[j][c]
      {
        var x := Column(data, c);
        ColumnUpdate(data, j, parity, c);
        XorCommutes(x, data[j][c]);
        XorAssociates(data[j][c], x, x);
        XorSelf(x);
        XorZero(data[j][c]);
      }
      assert XorBlocks(patched, f.t) == data[j];
      assert got[j := data[j]] == data;
    }
  }

  /** The contract is satisfiable: XOR parity is lawful, and wherever it exists any k symbols suffice. */
  lemma XorCodeMeetsContract()
    ensures Lawful(XorCode())
    ensures forall f :: XorCode().creates(f) ==> AnyK(XorCode(), f)
  {
    var code := XorCode();
    forall f, data, blocks, missing | Agrees(code, f, data, blocks, missing)
      ensures code.decode(f, blocks, missing) == Some(data)
    {
      XorRecovers(f, data, blocks, missing);
    }
  }
}
