/** The bookkeeping around the RaptorQ library in fec_decode: which received symbol stands in for which lost one. */
module RaptorQ {
  import opened Bytes
  import opened ErasureCode
  import opened Assembler

  /** Lost source symbols, ascending. */
  function Drops(missing: seq<bool>, k: nat): (r: seq<nat>)
    requires k <= |missing|
  {
    MissingIndices(Negate(missing[..k]))
  }

  /** Received repair symbols, ascending. */
  function Repairs(missing: seq<bool>, k: nat): (r: seq<nat>)
    requires k <= |missing|
    ensures |r| == |MissingIndices(missing[k..])|
  {
    Shifted(MissingIndices(missing[k..]), k)
  }

  lemma DropsExact(missing: seq<bool>, k: nat)
    requires k <= |missing|
    ensures Ascending(Drops(missing, k))
    ensures forall x :: x in Drops(missing, k) <==> 0 <= x < k && missing[x]
  {
    MissingExact(Negate(missing[..k]));
  }

  lemma RepairsExact(missing: seq<bool>, k: nat)
    requires k <= |missing|
    ensures Ascending(Repairs(missing, k))
    ensures forall i :: 0 <= i < |Repairs(missing, k)| ==>
              k <= Repairs(missing, k)[i] < |missing| && !missing[Repairs(missing, k)[i]]
  {
    var found := MissingIndices(missing[k..]);
    MissingExact(missing[k..]);
    forall i | 0 <= i < |found|
      ensures found[i] < |missing| - k && !missing[k + found[i]]
    {
      assert found[i] in found;
      assert missing[k..][found[i]] == missing[k + found[i]];
    }
  }

  /** No received repair symbol is left out. */
  lemma RepairsComplete(missing: seq<bool>, k: nat, x: nat)
    requires k <= x < |missing| && !missing[x]
    ensures x in Repairs(missing, k)
  {
    var found := MissingIndices(missing[k..]);
    MissingExact(missing[k..]);
    assert missing[k..][x - k] == missing[x];
    var i :| 0 <= i < |found| && found[i] == x - k;
    assert Repairs(missing, k)[i] == x;
  }

  lemma {:induction false} CountNegate(mask: seq<bool>)
    ensures Count(Negate(mask)) == |mask| - Count(mask)
  {
    if mask != [] {
      var n := |mask| - 1;
      assert Negate(mask)[..n] == Negate(mask[..n]);
      CountNegate(mask[..n]);
    }
  }

  /** If at least k symbols were received, there is a repair for every drop: the count guard never rejects. */
  lemma EnoughRepairs(missing: seq<bool>, k: nat)
    requires k <= |missing| && Count(Negate(missing)) >= k
    ensures |Drops(missing, k)| <= |Repairs(missing, k)|
  {
    assert missing == missing[..k] + missing[k..];
    CountConcat(missing[..k], missing[k..]);
    CountNegate(missing);
    CountNegate(missing[..k]);
  }

  // ----- Which symbol fills which row -----

  function RankIn(s: seq<nat>, x: nat): (i: nat)
    requires x in s
    ensures i < |s| && s[i] == x
  {
    if s[0] == x then 0 else 1 + RankIn(s[1..], x)
  }

  /** The received symbol copied into source row i: the symbol itself, or the repair paired with it. */
  function RowSource(missing: seq<bool>, k: nat, i: nat): (s: nat)
    requires i < k <= |missing| && |Drops(missing, k)| <= |Repairs(missing, k)|
  {
    DropsExact(missing, k);
    if missing[i] then Repairs(missing, k)[RankIn(Drops(missing, k), i)] else i
  }

  /** Each of the k rows is filled by exactly one received symbol, and all of them are different. */
  lemma RowsAreDistinctReceived(missing: seq<bool>, k: nat, i: nat, j: nat)
    requires i < k <= |missing| && j < k && |Drops(missing, k)| <= |Repairs(missing, k)|
    ensures var s := RowSource(missing, k, i); s < |missing| && !missing[s]
    ensures i != j ==> RowSource(missing, k, i) != RowSource(missing, k, j)
  {
    DropsExact(missing, k);
    RepairsExact(missing, k);
    if missing[i] && missing[j] && i != j {
      var a, b := RankIn(Drops(missing, k), i), RankIn(Drops(missing, k), j);
      assert a != b;
    }
  }

  // ----- The decoder -----

  /** The library as this code sees it: steps that may fail, the solved matrix, and one symbol mixed out of it. */
  datatype Library = Library(
    starts: nat -> bool,
    prepares: nat -> bool,
    solves: (seq<nat>, seq<nat>) -> bool,
    mix: (seq<nat>, seq<nat>, seq<Block>, nat) -> Block)

  function Rows(blocks: seq<Block>, missing: seq<bool>, k: nat): (r: seq<Block>)
    requires k <= |missing| <= |blocks| && |Drops(missing, k)| <= |Repairs(missing, k)|
  {
    seq(k, i requires 0 <= i < k => RowsAreDistinctReceived(missing, k, i, i); blocks[RowSource(missing, k, i)])
  }

  /** The dropped source blocks replaced by what the library mixes out of the rows. */
  function Restored(lib: Library, blocks: seq<Block>, missing: seq<bool>, k: nat): (r: seq<Block>)
    requires k <= |missing| <= |blocks| && |Drops(missing, k)| <= |Repairs(missing, k)|
    ensures |r| == |blocks|
  {
    var drops := Drops(missing, k);
    var repairs := Repairs(missing, k)[..|drops|];
    seq(|blocks|, i requires 0 <= i < |blocks| =>
      if i < k && missing[i] then lib.mix(drops, repairs, Rows(blocks, missing, k), i) else blocks[i])
  }

  /** What fec_decode returns for these blocks: nothing, or the k source blocks as it leaves them. */
  function Decoded(lib: Library, blocks: seq<Block>, missing: seq<bool>, k: nat): (r: Option<seq<Block>>)
    requires k <= |missing| <= |blocks|
  {
    var drops, repairs := Drops(missing, k), Repairs(missing, k);
    if |drops| > |repairs| then None
    else if drops == [] || (lib.starts(k) && lib.prepares(k) && lib.solves(drops, repairs[..|drops|])) then
      Some(Restored(lib, blocks, missing, k)[..k])
    else None
  }

  /** Row i of the matrix holds symbol i of the codeword, or the repair symbol that replaces it. */
  ghost predicate Replaced(word: seq<Block>, drops: seq<nat>, repairs: seq<nat>, rows: seq<Block>) {
    && |drops| == |repairs| && |rows| <= |word|
    && (forall i :: 0 <= i < |rows| && i !in drops ==> rows[i] == word[i])
    && (forall m :: 0 <= m < |drops| ==>
          drops[m] < |rows| && repairs[m] < |word| && rows[drops[m]] == word[repairs[m]])
  }

  /** What is asked of the library: once it has solved the system with those replacements, mixing gives the codeword's
      own source symbols. */
  ghost predicate Faithful(lib: Library, word: seq<Block>, k: nat) {
    forall drops, repairs, rows, i {:trigger lib.mix(drops, repairs, rows, i)} ::
      |rows| == k && Replaced(word, drops, repairs, rows) && lib.solves(drops, repairs) && 0 <= i < k ==>
        lib.mix(drops, repairs, rows, i) == word[i]
  }

  lemma {:induction false} RankOfOwn(s: seq<nat>, n: nat)
    requires Ascending(s) && n < |s|
    ensures RankIn(s, s[n]) == n
  {}

  lemma ReplacedAt(word: seq<Block>, blocks: seq<Block>, missing: seq<bool>, k: nat, m: nat)
    requires k <= |missing| == |word| <= |blocks| && |Drops(missing, k)| <= |Repairs(missing, k)|
    requires forall i :: 0 <= i < |missing| && !missing[i] ==> blocks[i] == word[i]
    requires m < |Drops(missing, k)|
    ensures Drops(missing, k)[m] < k && Repairs(missing, k)[m] < |word|
    ensures Rows(blocks, missing, k)[Drops(missing, k)[m]] == word[Repairs(missing, k)[m]]
  {
    var drops := Drops(missing, k);
    DropsInRange(missing, k);
    DropsExact(missing, k);
    RankOfOwn(drops, m);
    assert drops[m] in drops;
    RowAt(blocks, missing, k, drops[m]);
    RepairsExact(missing, k);
  }

  lemma RowsReplaced(word: seq<Block>, blocks: seq<Block>, missing: seq<bool>, k: nat)
    requires k <= |missing| == |word| <= |blocks| && |Drops(missing, k)| <= |Repairs(missing, k)|
    requires forall i :: 0 <= i < |missing| && !missing[i] ==> blocks[i] == word[i]
    ensures var n := |Drops(missing, k)|;
            Replaced(word, Drops(missing, k), Repairs(missing, k)[..n], Rows(blocks, missing, k))
  {
    var drops, rows := Drops(missing, k), Rows(blocks, missing, k);
    var repairs := Repairs(missing, k)[..|drops|];
    forall m | 0 <= m < |drops|
      ensures drops[m] < |rows| && repairs[m] < |word| && rows[drops[m]] == word[repairs[m]]
    {
      ReplacedAt(word, blocks, missing, k, m);
    }
    forall i | 0 <= i < |rows| && i !in drops
      ensures rows[i] == word[i]
    {
      RowAt(blocks, missing, k, i);
    }
  }

  /** The bookkeeping meets the contract the object protocol relies on: from the symbols of a codeword, whatever bytes
      lie in the missing blocks, it returns the source symbols or nothing. */
  lemma DecodedIsSource(lib: Library, word: seq<Block>, blocks: seq<Block>, missing: seq<bool>, k: nat)
    requires Faithful(lib, word, k) && k <= |missing| == |word| <= |blocks|
    requires forall i :: 0 <= i < |missing| && !missing[i] ==> blocks[i] == word[i]
    ensures Decoded(lib, blocks, missing, k) in {None, Some(word[..k])}
  {
    if Decoded(lib, blocks, missing, k).Some? {
      var restored := Restored(lib, blocks, missing, k);
      forall i | 0 <= i < k
        ensures restored[i] == word[i]
      {
        RestoredAt(lib, word, blocks, missing, k, i);
      }
      assert restored[..k] == word[..k];
    }
  }

  lemma RestoredAt(lib: Library, word: seq<Block>, blocks: seq<Block>, missing: seq<bool>, k: nat, i: nat)
    requires Faithful(lib, word, k) && i < k <= |missing| == |word| <= |blocks|
    requires forall i :: 0 <= i < |missing| && !missing[i] ==> blocks[i] == word[i]
    requires Decoded(lib, blocks, missing, k).Some?
    ensures Restored(lib, blocks, missing, k)[i] == word[i]
  {
    if missing[i] {
      DropsExact(missing, k);
      assert i in Drops(missing, k);
      RowsReplaced(word, blocks, missing, k);
    }
  }

  method ListDrops(missing: seq<bool>, k: nat) returns (drops: seq<nat>)
    requires k <= |missing|
    ensures drops == Drops(missing, k)
  {
    drops := [];
    for i := 0 to k
      invariant drops == Drops(missing, i)
    {
      assert Negate(missing[..i + 1])[..i] == Negate(missing[..i]);
      if missing[i] {
        drops := drops + [i];
      }
    }
  }

  /** The list of missing indices, one flag at a time. */
  lemma MissingNext(mask: seq<bool>, i: nat)
    requires i < |mask|
    ensures MissingIndices(mask[..i + 1]) == MissingIndices(mask[..i]) + if mask[i] then [] else [i]
  {
    assert mask[..i + 1][..i] == mask[..i];
  }

  function Shifted(s: seq<nat>, k: nat): (r: seq<nat>)
    ensures |r| == |s|
  {
    seq(|s|, i requires 0 <= i < |s| => k + s[i])
  }

  lemma ShiftedNext(s: seq<nat>, x: nat, k: nat)
    ensures Shifted(s + [x], k) == Shifted(s, k) + [k + x]
  {}

  method ListRepairs(missing: seq<bool>, k: nat) returns (repairs: seq<nat>)
    requires k <= |missing|
    ensures repairs == Repairs(missing, k)
  {
    repairs := [];
    ghost var tail, found: seq<nat> := missing[k..], [];
    for i := 0 to |missing| - k
      invariant found == MissingIndices(tail[..i]) && repairs == Shifted(found, k)
    {
      MissingNext(tail, i);
      if !missing[k + i] {
        ShiftedNext(found, i, k);
        repairs := repairs + [k + i];
        found := found + [i];
      }
    }
    assert tail[..|tail|] == tail;
  }

  /** Received source symbols go to their own rows. */
  method CopyReceived(rows: array<Block>, blocks: seq<Block>, missing: seq<bool>)
    requires rows.Length <= |missing| <= |blocks|
    modifies rows
    ensures forall i :: 0 <= i < rows.Length && !missing[i] ==> rows[i] == blocks[i]
  {
    for i := 0 to rows.Length
      invariant forall j :: 0 <= j < i && !missing[j] ==> rows[j] == blocks[j]
    {
      if !missing[i] {
        rows[i] := blocks[i];
      }
    }
  }

  /** Writes the n-th value to the n-th listed place, and nowhere else. */
  method Scatter(target: array<Block>, places: seq<nat>, values: seq<Block>)
    requires Ascending(places) && |places| == |values| && forall n :: 0 <= n < |places| ==> places[n] < target.Length
    modifies target
    ensures forall n :: 0 <= n < |places| ==> target[places[n]] == values[n]
    ensures forall i :: 0 <= i < target.Length && i !in places ==> target[i] == old(target[i])
  {
    for n := 0 to |places|
      invariant forall m :: 0 <= m < n ==> target[places[m]] == values[m]
      invariant forall i :: 0 <= i < target.Length && i !in places ==> target[i] == old(target[i])
    {
      assert places[n] in places;
      target[places[n]] := values[n];
    }
  }

  lemma DropsInRange(missing: seq<bool>, k: nat)
    requires k <= |missing|
    ensures forall n :: 0 <= n < |Drops(missing, k)| ==> Drops(missing, k)[n] < k
  {
    DropsExact(missing, k);
    var drops := Drops(missing, k);
    forall n | 0 <= n < |drops|
      ensures drops[n] < k
    {
      assert drops[n] in drops;
    }
  }

  /** The block that belongs in row i. */
  lemma RowAt(blocks: seq<Block>, missing: seq<bool>, k: nat, i: nat)
    requires i < k <= |missing| <= |blocks| && |Drops(missing, k)| <= |Repairs(missing, k)|
    ensures missing[i] <==> i in Drops(missing, k)
    ensures !missing[i] ==> Rows(blocks, missing, k)[i] == blocks[i]
    ensures missing[i] ==>
              var n := RankIn(Drops(missing, k), i);
              Repairs(missing, k)[n] < |blocks| && Rows(blocks, missing, k)[i] == blocks[Repairs(missing, k)[n]]
  {
    DropsExact(missing, k);
    RepairsExact(missing, k);
  }

  function Paired(blocks: seq<Block>, repairs: seq<nat>, n: nat): (r: seq<Block>)
    requires n <= |repairs| && forall i :: 0 <= i < |repairs| ==> repairs[i] < |blocks|
    ensures |r| == n
  {
    seq(n, i requires 0 <= i < n => blocks[repairs[i]])
  }

  /** The source matrix: received symbols in their own rows, then each drop's repair in the drop's row. */
  method FillRows(blocks: seq<Block>, missing: seq<bool>, k: nat, drops: seq<nat>, repairs: seq<nat>)
    returns (rows: seq<Block>)
    requires k <= |missing| <= |blocks| && drops == Drops(missing, k) && repairs == Repairs(missing, k)
    requires |drops| <= |repairs|
    ensures rows == Rows(blocks, missing, k)
  {
    DropsExact(missing, k);
    DropsInRange(missing, k);
    RepairsExact(missing, k);
    var d := new Block[k](_ => []);
    CopyReceived(d, blocks, missing);
    Scatter(d, drops, Paired(blocks, repairs, |drops|));
    rows := d[..];
    forall i | 0 <= i < k
      ensures rows[i] == Rows(blocks, missing, k)[i]
    {
      RowAt(blocks, missing, k, i);
    }
  }

  lemma RestoredBlock(lib: Library, blocks: seq<Block>, missing: seq<bool>, k: nat, i: nat)
    requires k <= |missing| <= |blocks| && i < |blocks| && |Drops(missing, k)| <= |Repairs(missing, k)|
    ensures var drops := Drops(missing, k);
            Restored(lib, blocks, missing, k)[i] ==
            if i in drops then lib.mix(drops, Repairs(missing, k)[..|drops|], Rows(blocks, missing, k), i)
            else blocks[i]
  {
    DropsExact(missing, k);
  }

  function Mixed(lib: Library, drops: seq<nat>, pairs: seq<nat>, rows: seq<Block>): (r: seq<Block>)
    ensures |r| == |drops|
  {
    seq(|drops|, n requires 0 <= n < |drops| => lib.mix(drops, pairs, rows, drops[n]))
  }

  /** Writes the recovered symbols over the dropped source blocks. */
  method MixOut(lib: Library, blocks: array<Block>, missing: seq<bool>, k: nat,
                drops: seq<nat>, repairs: seq<nat>, rows: seq<Block>)
    requires k <= |missing| <= blocks.Length && drops == Drops(missing, k) && repairs == Repairs(missing, k)
    requires |drops| <= |repairs| && rows == Rows(blocks[..], missing, k)
    modifies blocks
    ensures blocks[..] == Restored(lib, old(blocks[..]), missing, k)
  {
    DropsExact(missing, k);
    DropsInRange(missing, k);
    ghost var was := blocks[..];
    Scatter(blocks, drops, Mixed(lib, drops, repairs[..|drops|], rows));
    forall i | 0 <= i < blocks.Length
      ensures blocks[i] == Restored(lib, was, missing, k)[i]
    {
      RestoredBlock(lib, was, missing, k, i);
      if i in drops {
        assert drops[RankIn(drops, i)] == i;
      }
    }
  }

  /** The RaptorQ branch of fec_decode, in place on the block array. Every failing exit leaves the blocks as they were;
      with at least k symbols received only the library itself can fail; success writes exactly the dropped source
      blocks, with what the library mixes out of the rows. */
  method Decode(lib: Library, blocks: array<Block>, missing: seq<bool>, k: nat) returns (ok: bool)
    requires k <= |missing| <= blocks.Length
    modifies blocks
    ensures !ok ==> blocks[..] == old(blocks[..])
    ensures Decoded(lib, old(blocks[..]), missing, k) == if ok then Some(blocks[..k]) else None
    ensures Count(Negate(missing)) >= k ==> |Drops(missing, k)| <= |Repairs(missing, k)|
    ensures Count(Negate(missing)) >= k && Drops(missing, k) != [] ==>
              (ok <==> lib.starts(k) && lib.prepares(k)
                       && lib.solves(Drops(missing, k), Repairs(missing, k)[..|Drops(missing, k)|]))
    ensures Drops(missing, k) == [] ==> ok && blocks[..] == old(blocks[..])
    ensures ok ==> |Drops(missing, k)| <= |Repairs(missing, k)|
    ensures ok ==> blocks[..] == Restored(lib, old(blocks[..]), missing, k)
  {
    var drops := ListDrops(missing, k);
    var repairs := ListRepairs(missing, k);
    if Count(Negate(missing)) >= k {
      EnoughRepairs(missing, k);
    }
    DropsExact(missing, k);
    if |drops| > |repairs| {
      return false;
    }
    if |drops| == 0 {
      assert blocks[..] == Restored(lib, blocks[..], missing, k);
      return true;
    }
    if !lib.starts(k) || !lib.prepares(k) || !lib.solves(drops, repairs[..|drops|]) {
      return false;
    }
    var rows := FillRows(blocks[..], missing, k, drops, repairs);
    MixOut(lib, blocks, missing, k, drops, repairs, rows);
    ok := true;
  }

  // ----- As the decoder of the object protocol -----

  /** Mixing rows of one size gives a symbol of that size. */
  ghost predicate KeepsSize(lib: Library) {
    forall drops, repairs, rows, i: nat, n: nat, t: nat :: Shaped(rows, n, t) && i < n ==>
      |lib.mix(drops, repairs, rows, i)| == t
  }

  /** fec_decode of a RaptorQ context, on blocks of the context's shape. */
  function DecodeSymbols(lib: Library, f: FecParams, blocks: seq<Block>, missing: seq<bool>): (r: Option<seq<Block>>)
  {
    if |missing| == f.k + f.p && Shaped(blocks, f.k + f.p, f.t) then Decoded(lib, blocks, missing, f.k) else None
  }

  /** The code that uses this decoder for RaptorQ contexts, and is otherwise the given one. */
  function WithRaptorQ(base: Code, lib: Library): (code: Code)
  {
    base.(decode := (f: FecParams, blocks: seq<Block>, missing: seq<bool>) =>
      if f.kind.RaptorQ? then DecodeSymbols(lib, f, blocks, missing) else base.decode(f, blocks, missing))
  }

  lemma RowsShaped(blocks: seq<Block>, missing: seq<bool>, k: nat, t: nat)
    requires k <= |missing| <= |blocks| && |Drops(missing, k)| <= |Repairs(missing, k)| && Shaped(blocks, |blocks|, t)
    ensures Shaped(Rows(blocks, missing, k), k, t)
  {
    forall i | 0 <= i < k
      ensures |Rows(blocks, missing, k)[i]| == t
    {
      RowsAreDistinctReceived(missing, k, i, i);
    }
  }

  lemma DecodeSymbolsShape(lib: Library, f: FecParams, blocks: seq<Block>, missing: seq<bool>)
    requires KeepsSize(lib) && DecodeSymbols(lib, f, blocks, missing).Some?
    ensures Shaped(DecodeSymbols(lib, f, blocks, missing).value, f.k, f.t)
  {
    RowsShaped(blocks, missing, f.k, f.t);
  }

  /** If the library keeps sizes and solves what it says it solves, the code with this decoder meets the contract that
      every guarantee of the object protocol assumes. */
  lemma RaptorQIsLawful(base: Code, lib: Library)
    requires Lawful(base) && KeepsSize(lib)
    requires forall f: FecParams, data :: f.kind.RaptorQ? && base.creates(f) && Shaped(data, f.k, f.t) ==>
               Faithful(lib, Codeword(base, f, data), f.k)
    ensures Lawful(WithRaptorQ(base, lib))
  {
    var code := WithRaptorQ(base, lib);
    forall f: FecParams, blocks, missing | code.decode(f, blocks, missing).Some?
      ensures Shaped(code.decode(f, blocks, missing).value, f.k, f.t)
    {
      if f.kind.RaptorQ? {
        DecodeSymbolsShape(lib, f, blocks, missing);
      }
    }
    forall f, data, blocks, missing | Agrees(code, f, data, blocks, missing)
      ensures code.decode(f, blocks, missing) in {None, Some(data)}
    {
      AgreedIsSource(base, lib, f, data, blocks, missing);
    }
  }

  lemma AgreedIsSource(base: Code, lib: Library, f: FecParams, data: seq<Block>, blocks: seq<Block>, missing: seq<bool>)
    requires DecodeSound(base) && Agrees(WithRaptorQ(base, lib), f, data, blocks, missing)
    requires f.kind.RaptorQ? ==> Faithful(lib, Codeword(base, f, data), f.k)
    ensures WithRaptorQ(base, lib).decode(f, blocks, missing) in {None, Some(data)}
  {
    SameCodeword(base, lib, f, data);
    if f.kind.RaptorQ? {
      SymbolsAreSource(lib, f, Codeword(base, f, data), data, blocks, missing);
    } else {
      assert Agrees(base, f, data, blocks, missing);
    }
  }

  lemma SameCodeword(base: Code, lib: Library, f: FecParams, data: seq<Block>)
    ensures Codeword(WithRaptorQ(base, lib), f, data) == Codeword(base, f, data)
    ensures WithRaptorQ(base, lib).creates(f) == base.creates(f)
    ensures |data| <= |Codeword(base, f, data)| && Codeword(base, f, data)[..|data|] == data
  {}

  lemma SymbolsAreSource(lib: Library, f: FecParams, word: seq<Block>, data: seq<Block>, blocks: seq<Block>,
                         missing: seq<bool>)
    requires Faithful(lib, word, f.k) && |missing| == |word| == f.k + f.p && Shaped(blocks, f.k + f.p, f.t)
    requires word[..f.k] == data && forall i :: 0 <= i < |missing| && !missing[i] ==> blocks[i] == word[i]
    ensures DecodeSymbols(lib, f, blocks, missing) in {None, Some(data)}
  {
    DecodedIsSource(lib, word, blocks, missing, f.k);
  }
}
