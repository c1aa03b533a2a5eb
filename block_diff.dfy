/**
 * `MarkdownDiffService`: compares two markdown snapshots block by block. Blocks are
 * matched by hash; a base block whose hash is missing on the new side is reported as
 * modified (paired with its most similar new block of the same kind) or removed, and
 * a new block whose hash is missing on the base side is added unless it already is
 * the new half of a modification.
 */
module BlockDiff {
  import opened Wrappers
  import opened Text
  import opened BlockParser
  import opened EditDistance
  import opened OrderedIndex

  /** `this.diffThreshold`. */
  const DiffThreshold: real := 0.01

  /** `calculateBlockSimilarity`: 0 across kinds, otherwise the similarity of the contents. */
  function BlockSimilarity(b1: Block, b2: Block): (r: real)
    ensures 0.0 <= r <= 1.0
    ensures b1.kind != b2.kind ==> r == 0.0
    ensures b1.kind == b2.kind ==> (r == 1.0 <==> b1.content == b2.content)
  {
    if b1.kind != b2.kind then 0.0 else Similarity(b1.content, b2.content)
  }

  /** The candidates `findSimilarBlock` considers: same type, and same level for headings. */
  predicate Comparable(target: Block, b: Block) {
    b.kind == target.kind && (b.kind == Heading ==> b.level == target.level)
  }

  /** `findSimilarBlock`'s `bestMatch` (an index) and `bestSimilarity` after the first `n` blocks. */
  function SimilarAfter(target: Block, blocks: seq<Block>, n: nat): (r: (Option<nat>, real))
    requires n <= |blocks|
    ensures r.0.Some? ==> r.0.value < n
    decreases n
  {
    if n == 0 then (None, 0.0)
    else
      var (m, best) := SimilarAfter(target, blocks, n - 1);
      var b := blocks[n - 1];
      if !Comparable(target, b) then (m, best)
      else
        var similarity := BlockSimilarity(target, b);
        if similarity > DiffThreshold && similarity > best then (Some(n - 1), similarity) else (m, best)
  }

  function FindSimilar(target: Block, blocks: seq<Block>): (r: Option<nat>)
    ensures r.Some? ==> r.value < |blocks|
  {
    SimilarAfter(target, blocks, |blocks|).0
  }

  /** The best match is the first comparable block of greatest similarity, if that exceeds the threshold. */
  predicate IsBestMatch(target: Block, blocks: seq<Block>, n: nat, r: Option<nat>)
    requires n <= |blocks|
  {
    match r
    case None => forall j :: 0 <= j < n && Comparable(target, blocks[j]) ==> BlockSimilarity(target, blocks[j]) <= DiffThreshold
    case Some(k) =>
      && k < n && Comparable(target, blocks[k]) && BlockSimilarity(target, blocks[k]) > DiffThreshold
      && (forall j :: 0 <= j < n && Comparable(target, blocks[j]) ==> BlockSimilarity(target, blocks[j]) <= BlockSimilarity(target, blocks[k]))
      && (forall j :: 0 <= j < k && Comparable(target, blocks[j]) ==> BlockSimilarity(target, blocks[j]) < BlockSimilarity(target, blocks[k]))
  }

  lemma {:induction false} SimilarAfterBest(target: Block, blocks: seq<Block>, n: nat)
    requires n <= |blocks|
    ensures IsBestMatch(target, blocks, n, SimilarAfter(target, blocks, n).0)
    ensures SimilarAfter(target, blocks, n).0.None? ==> SimilarAfter(target, blocks, n).1 == 0.0
    ensures SimilarAfter(target, blocks, n).0.Some? ==>
      SimilarAfter(target, blocks, n).1 == BlockSimilarity(target, blocks[SimilarAfter(target, blocks, n).0.value])
    decreases n
  {
    if n > 0 {
      SimilarAfterBest(target, blocks, n - 1);
    }
  }

  /** `findSimilarBlock`, returning the index of the block it picks. */
  method FindSimilarBlock(targetBlock: Block, blocks: seq<Block>) returns (bestMatch: Option<nat>)
    ensures bestMatch == FindSimilar(targetBlock, blocks)
    ensures IsBestMatch(targetBlock, blocks, |blocks|, bestMatch)
  {
    bestMatch := None;
    var bestSimilarity := 0.0;
    for i := 0 to |blocks|
      invariant (bestMatch, bestSimilarity) == SimilarAfter(targetBlock, blocks, i)
    {
      var block := blocks[i];
      if block.kind != targetBlock.kind {
        continue;
      }
      if block.kind == Heading && block.level != targetBlock.level {
        continue;
      }
      var similarity := BlockSimilarity(targetBlock, block);
      if similarity > DiffThreshold && similarity > bestSimilarity {
        bestMatch := Some(i);
        bestSimilarity := similarity;
      }
    }
    SimilarAfterBest(targetBlock, blocks, |blocks|);
  }

  // ---------------------------------------------------------------------------
  // compareBlocks

  /** A modified pair `{before, after, similarity}`; `afterIndex` is the identity of `after` among the new blocks. */
  datatype Modification = Modification(before: Block, after: Block, afterIndex: nat, similarity: real)

  datatype Comparison = Comparison(added: seq<Block>, removed: seq<Block>, modified: seq<Modification>)

  function Hashes(bs: seq<Block>): (r: seq<string>)
    ensures |r| == |bs| && forall i :: 0 <= i < |bs| ==> r[i] == GetBlockHash(bs[i])
  {
    if |bs| == 0 then [] else [GetBlockHash(bs[0])] + Hashes(bs[1..])
  }

  /** `hs[i]` is the entry a `Map` keyed by hash keeps: the last one with its hash. */
  predicate LastWithHash(hs: seq<string>, i: int) {
    0 <= i < |hs| && forall j :: i < j < |hs| ==> hs[j] != hs[i]
  }

  /** `ix` maps each distinct hash of `hs`, once, to the last position carrying it. */
  ghost predicate IsBlockMap(hs: seq<string>, ix: Index) {
    && (forall k :: k in ix.pos <==> k in hs)
    && (forall k :: k in ix.keys <==> k in hs)
    && NoDuplicates(ix.keys)
    && KeptAt(hs, ix)
  }

  /** Each position of `ix` holds the last entry of `hs` with its key. */
  ghost predicate KeptAt(hs: seq<string>, ix: Index) {
    forall k :: k in ix.pos ==> LastWithHash(hs, ix.pos[k]) && hs[ix.pos[k]] == k
  }

  /** Every key has a position inside `bs`. */
  predicate KeysInRange(bs: seq<Block>, ix: Index) {
    forall k :: k in ix.keys ==> k in ix.pos && ix.pos[k] < |bs|
  }

  /** The index built by `blocks.forEach((block, index) => map.set(getBlockHash(block), {block, index}))`. */
  function BlockMap(bs: seq<Block>): (r: Index)
    ensures KeysInRange(bs, r) && |r.keys| <= |bs|
  {
    BuildFacts(Hashes(bs));
    FirstOccurrencesFacts(Hashes(bs));
    Build(Hashes(bs))
  }

  lemma BuildIsBlockMap(hs: seq<string>)
    ensures IsBlockMap(hs, Build(hs))
  {
    BuildFacts(hs);
    FirstOccurrencesFacts(hs);
  }

  lemma BlockMapFacts(bs: seq<Block>)
    ensures IsBlockMap(Hashes(bs), BlockMap(bs))
  {
    BuildIsBlockMap(Hashes(bs));
  }

  /** The new block `modified.some(m => m.after === block)` looks for. */
  predicate IsAfter(modified: seq<Modification>, j: nat) {
    exists m :: m in modified && m.afterIndex == j
  }

  /** `baseMap.forEach` over the first `n` base keys: removed blocks and modifications. */
  function BasePass(base: seq<Block>, next: seq<Block>, bix: Index, nix: Index, n: nat): (r: (seq<Block>, seq<Modification>))
    requires KeysInRange(base, bix) && n <= |bix.keys|
    decreases n
  {
    if n == 0 then ([], [])
    else
      var (removed, modified) := BasePass(base, next, bix, nix, n - 1);
      var key := bix.keys[n - 1];
      if key in nix.pos then (removed, modified)
      else
        var b := base[bix.pos[key]];
        match FindSimilar(b, next)
        case Some(j) => (removed, modified + [Modification(b, next[j], j, BlockSimilarity(b, next[j]))])
        case None => (removed + [b], modified)
  }

  /** `newMap.forEach` over the first `n` new keys: added blocks. */
  function NewPass(next: seq<Block>, bix: Index, nix: Index, modified: seq<Modification>, n: nat): (r: seq<Block>)
    requires KeysInRange(next, nix) && n <= |nix.keys|
    decreases n
  {
    if n == 0 then []
    else
      var added := NewPass(next, bix, nix, modified, n - 1);
      var key := nix.keys[n - 1];
      var j := nix.pos[key];
      if key !in bix.pos && !IsAfter(modified, j) then added + [next[j]] else added
  }

  /** `compareBlocks`. */
  function Compare(base: seq<Block>, next: seq<Block>): Comparison {
    var bix := BlockMap(base);
    var nix := BlockMap(next);
    var (removed, modified) := BasePass(base, next, bix, nix, |bix.keys|);
    Comparison(NewPass(next, bix, nix, modified, |nix.keys|), removed, modified)
  }

  /** The `forEach((block, index) => map.set(hash, {block, index}))` loop. */
  method BuildBlockMap(bs: seq<Block>) returns (keys: seq<string>, pos: map<string, nat>)
    ensures Index(keys, pos) == BlockMap(bs)
  {
    keys, pos := [], map[];
    for index := 0 to |bs|
      invariant Index(keys, pos) == Build(Hashes(bs)[..index])
    {
      BuildStep(Hashes(bs), index);
      var hash := GetBlockHash(bs[index]);
      ghost var next := Put(Index(keys, pos), hash, index);
      if hash !in pos {
        keys := keys + [hash];
      }
      pos := pos[hash := index];
      assert Index(keys, pos) == next;
    }
    assert Hashes(bs)[..|bs|] == Hashes(bs);
  }

  /** The `baseMap.forEach` loop of `compareBlocks`. */
  method ClassifyBase(baseBlocks: seq<Block>, newBlocks: seq<Block>, baseMap: Index, newMap: Index)
    returns (removed: seq<Block>, modified: seq<Modification>)
    requires KeysInRange(baseBlocks, baseMap)
    ensures (removed, modified) == BasePass(baseBlocks, newBlocks, baseMap, newMap, |baseMap.keys|)
  {
    removed, modified := [], [];
    for n := 0 to |baseMap.keys|
      invariant (removed, modified) == BasePass(baseBlocks, newBlocks, baseMap, newMap, n)
    {
      var hash := baseMap.keys[n];
      if hash !in newMap.pos {
        var block := baseBlocks[baseMap.pos[hash]];
        var similarBlock := FindSimilarBlock(block, newBlocks);
        if similarBlock.Some? {
          var j := similarBlock.value;
          modified := modified + [Modification(block, newBlocks[j], j, BlockSimilarity(block, newBlocks[j]))];
        } else {
          removed := removed + [block];
        }
      }
    }
  }

  /** The `newMap.forEach` loop of `compareBlocks`. */
  method CollectAdded(newBlocks: seq<Block>, baseMap: Index, newMap: Index, modified: seq<Modification>)
    returns (added: seq<Block>)
    requires KeysInRange(newBlocks, newMap)
    ensures added == NewPass(newBlocks, baseMap, newMap, modified, |newMap.keys|)
  {
    added := [];
    for n := 0 to |newMap.keys|
      invariant added == NewPass(newBlocks, baseMap, newMap, modified, n)
    {
      var hash := newMap.keys[n];
      if hash !in baseMap.pos {
        var index := newMap.pos[hash];
        var isModified := IsAfter(modified, index);
        if !isModified {
          added := added + [newBlocks[index]];
        }
      }
    }
  }

  /** `compareBlocks`. */
  method CompareBlocks(baseBlocks: seq<Block>, newBlocks: seq<Block>)
    returns (added: seq<Block>, removed: seq<Block>, modified: seq<Modification>)
    ensures Comparison(added, removed, modified) == Compare(baseBlocks, newBlocks)
  {
    var baseKeys, basePos := BuildBlockMap(baseBlocks);
    var newKeys, newPos := BuildBlockMap(newBlocks);
    removed, modified := ClassifyBase(baseBlocks, newBlocks, Index(baseKeys, basePos), Index(newKeys, newPos));
    added := CollectAdded(newBlocks, Index(baseKeys, basePos), Index(newKeys, newPos), modified);
  }

  // ---------------------------------------------------------------------------
  // What compareBlocks reports

  /**
   * A removed block: the kept base block (hashes `hb`) of a hash the new side (hashes `hn`)
   * lacks, with no similar new block.
   */
  predicate IsRemoved(hb: seq<string>, hn: seq<string>, base: seq<Block>, next: seq<Block>, b: Block) {
    && (exists i :: 0 <= i < |base| && LastWithHash(hb, i) && base[i] == b && hb[i] !in hn)
    && IsBestMatch(b, next, |next|, None)
  }

  /** A modification: the kept base block of a hash the new side lacks, paired with its best match. */
  predicate IsModified(hb: seq<string>, hn: seq<string>, base: seq<Block>, next: seq<Block>, m: Modification) {
    && (exists i :: 0 <= i < |base| && LastWithHash(hb, i) && base[i] == m.before && hb[i] !in hn)
    && m.afterIndex < |next| && m.after == next[m.afterIndex]
    && IsBestMatch(m.before, next, |next|, Some(m.afterIndex))
    && m.similarity == BlockSimilarity(m.before, m.after)
  }

  /** An added block: the kept new block of a hash the base side lacks, not already an `after`. */
  predicate IsAdded(hb: seq<string>, hn: seq<string>, next: seq<Block>, modified: seq<Modification>, b: Block) {
    exists j :: 0 <= j < |next| && LastWithHash(hn, j) && next[j] == b && hn[j] !in hb && !IsAfter(modified, j)
  }

  lemma {:induction false} BasePassSound(hb: seq<string>, hn: seq<string>, base: seq<Block>, next: seq<Block>, bix: Index, nix: Index, n: nat)
    requires |hb| == |base| && KeptAt(hb, bix) && (forall k :: k in nix.pos <==> k in hn) && KeysInRange(base, bix) && n <= |bix.keys|
    ensures forall b :: b in BasePass(base, next, bix, nix, n).0 ==> IsRemoved(hb, hn, base, next, b)
    ensures forall m :: m in BasePass(base, next, bix, nix, n).1 ==> IsModified(hb, hn, base, next, m)
    decreases n
  {
    if n > 0 {
      BasePassSound(hb, hn, base, next, bix, nix, n - 1);
      var prev := BasePass(base, next, bix, nix, n - 1);
      var key := bix.keys[n - 1];
      if key !in nix.pos {
        var i := bix.pos[key];
        var b := base[i];
        assert LastWithHash(hb, i) && hb[i] == key && key !in hn;
        SimilarAfterBest(b, next, |next|);
        match FindSimilar(b, next)
        case Some(j) =>
          var m := Modification(b, next[j], j, BlockSimilarity(b, next[j]));
          assert BasePass(base, next, bix, nix, n) == (prev.0, prev.1 + [m]);
          assert IsModified(hb, hn, base, next, m);
        case None =>
          assert BasePass(base, next, bix, nix, n) == (prev.0 + [b], prev.1);
          assert IsRemoved(hb, hn, base, next, b);
      } else {
        assert BasePass(base, next, bix, nix, n) == prev;
      }
    }
  }

  lemma {:induction false} NewPassSound(hb: seq<string>, hn: seq<string>, next: seq<Block>, bix: Index, nix: Index, modified: seq<Modification>, n: nat)
    requires |hn| == |next| && (forall k :: k in bix.pos <==> k in hb) && KeptAt(hn, nix) && KeysInRange(next, nix) && n <= |nix.keys|
    ensures forall b :: b in NewPass(next, bix, nix, modified, n) ==> IsAdded(hb, hn, next, modified, b)
    ensures |NewPass(next, bix, nix, modified, n)| <= n
    decreases n
  {
    if n > 0 {
      NewPassSound(hb, hn, next, bix, nix, modified, n - 1);
      var added := NewPass(next, bix, nix, modified, n - 1);
      var key := nix.keys[n - 1];
      var j := nix.pos[key];
      if key !in bix.pos && !IsAfter(modified, j) {
        assert LastWithHash(hn, j) && hn[j] == key && key !in hb;
        assert IsAdded(hb, hn, next, modified, next[j]);
        assert NewPass(next, bix, nix, modified, n) == added + [next[j]];
        forall b | b in added + [next[j]] ensures IsAdded(hb, hn, next, modified, b) {
          if b !in added {
            assert b == next[j];
          }
        }
      } else {
        assert NewPass(next, bix, nix, modified, n) == added;
      }
    }
  }

  /** Every block `compareBlocks` reports is removed, modified or added in the sense above. */
  lemma CompareSound(base: seq<Block>, next: seq<Block>)
    ensures forall b :: b in Compare(base, next).removed ==> IsRemoved(Hashes(base), Hashes(next), base, next, b)
    ensures forall m :: m in Compare(base, next).modified ==> IsModified(Hashes(base), Hashes(next), base, next, m)
    ensures forall b :: b in Compare(base, next).added ==>
      IsAdded(Hashes(base), Hashes(next), next, Compare(base, next).modified, b)
  {
    var bix, nix := BlockMap(base), BlockMap(next);
    BlockMapFacts(base);
    BlockMapFacts(next);
    BasePassSound(Hashes(base), Hashes(next), base, next, bix, nix, |bix.keys|);
    NewPassSound(Hashes(base), Hashes(next), next, bix, nix, BasePass(base, next, bix, nix, |bix.keys|).1, |nix.keys|);
  }

  /** The hashes among the first `n` base keys that the new side lacks. */
  function MissingKeys(hn: seq<string>, bix: Index, n: nat): set<string>
    requires n <= |bix.keys|
  {
    set k | k in bix.keys[..n] && k !in hn
  }

  /** One key of `baseMap.forEach` adds one report exactly when the new side lacks it. */
  lemma BasePassStep(base: seq<Block>, next: seq<Block>, bix: Index, nix: Index, n: nat)
    requires KeysInRange(base, bix) && 0 < n <= |bix.keys|
    ensures |BasePass(base, next, bix, nix, n).0| + |BasePass(base, next, bix, nix, n).1|
      == |BasePass(base, next, bix, nix, n - 1).0| + |BasePass(base, next, bix, nix, n - 1).1|
         + (if bix.keys[n - 1] in nix.pos then 0 else 1)
  {
  }

  lemma MissingStep(hn: seq<string>, bix: Index, nix: Index, n: nat)
    requires NoDuplicates(bix.keys) && (forall k :: k in nix.pos <==> k in hn) && 0 < n <= |bix.keys|
    ensures |MissingKeys(hn, bix, n)| == |MissingKeys(hn, bix, n - 1)| + (if bix.keys[n - 1] in nix.pos then 0 else 1)
  {
    var key := bix.keys[n - 1];
    assert bix.keys[..n] == bix.keys[..n - 1] + [key];
    assert key !in bix.keys[..n - 1];
    if key in nix.pos {
      assert MissingKeys(hn, bix, n) == MissingKeys(hn, bix, n - 1);
    } else {
      assert MissingKeys(hn, bix, n) == MissingKeys(hn, bix, n - 1) + {key};
    }
  }

  lemma {:induction false} BasePassCount(hn: seq<string>, base: seq<Block>, next: seq<Block>, bix: Index, nix: Index, n: nat)
    requires NoDuplicates(bix.keys) && (forall k :: k in nix.pos <==> k in hn)
    requires KeysInRange(base, bix) && n <= |bix.keys|
    ensures |BasePass(base, next, bix, nix, n).0| + |BasePass(base, next, bix, nix, n).1| == |MissingKeys(hn, bix, n)|
    decreases n
  {
    if n == 0 {
      assert MissingKeys(hn, bix, 0) == {};
    } else {
      BasePassCount(hn, base, next, bix, nix, n - 1);
      BasePassStep(base, next, bix, nix, n);
      MissingStep(hn, bix, nix, n);
    }
  }

  /** The base block a missing key `h` stands for is reported as removed or as a modification's `before`. */
  predicate Reported(hb: seq<string>, base: seq<Block>, r: (seq<Block>, seq<Modification>), h: string) {
    exists i :: 0 <= i < |base| && i < |hb| && hb[i] == h && (base[i] in r.0 || exists m :: m in r.1 && m.before == base[i])
  }

  lemma {:induction false} BasePassCovers(hb: seq<string>, hn: seq<string>, base: seq<Block>, next: seq<Block>, bix: Index, nix: Index, n: nat)
    requires |hb| == |base| && IsBlockMap(hb, bix) && IsBlockMap(hn, nix) && KeysInRange(base, bix) && n <= |bix.keys|
    ensures forall h :: h in MissingKeys(hn, bix, n) ==> Reported(hb, base, BasePass(base, next, bix, nix, n), h)
    decreases n
  {
    if n > 0 {
      BasePassCovers(hb, hn, base, next, bix, nix, n - 1);
      var key := bix.keys[n - 1];
      assert bix.keys[..n] == bix.keys[..n - 1] + [key];
      var r := BasePass(base, next, bix, nix, n);
      var r' := BasePass(base, next, bix, nix, n - 1);
      assert r'.0 <= r.0 && r'.1 <= r.1;
      forall h | h in MissingKeys(hn, bix, n)
        ensures Reported(hb, base, r, h)
      {
        if h == key {
          var i := bix.pos[key];
          assert hb[i] == h;
          assert base[i] in r.0 || r.1[|r.1| - 1].before == base[i];
        } else {
          assert h in MissingKeys(hn, bix, n - 1);
        }
      }
    }
  }

  lemma SetCardAtMostLength(s: seq<string>)
    ensures |set x | x in s| <= |s|
  {
    DistinctCount(s);
  }

  /** The reports of `compareBlocks` in terms of the two passes. */
  lemma CompareUnfold(base: seq<Block>, next: seq<Block>)
    ensures var bix, nix := BlockMap(base), BlockMap(next);
      var r := BasePass(base, next, bix, nix, |bix.keys|);
      Compare(base, next) == Comparison(NewPass(next, bix, nix, r.1, |nix.keys|), r.0, r.1)
  {
  }

  /**
   * Each distinct base hash the new side lacks is reported exactly once, as a removal or
   * as a modification; duplicates of a hash collapse to one report.
   */
  lemma CompareCounts(base: seq<Block>, next: seq<Block>)
    ensures |Compare(base, next).removed| + |Compare(base, next).modified|
      == |set h | h in Hashes(base) && h !in Hashes(next)|
    ensures |Compare(base, next).removed| + |Compare(base, next).modified| <= |base|
  {
    var hb, hn := Hashes(base), Hashes(next);
    var bix, nix := BlockMap(base), BlockMap(next);
    CompareUnfold(base, next);
    BlockMapFacts(base);
    BlockMapFacts(next);
    BasePassCount(hn, base, next, bix, nix, |bix.keys|);
    AllMissingKeys(hb, hn, bix);
  }

  lemma AllMissingKeys(hb: seq<string>, hn: seq<string>, bix: Index)
    requires IsBlockMap(hb, bix)
    ensures MissingKeys(hn, bix, |bix.keys|) == set h | h in hb && h !in hn
    ensures |set h | h in hb && h !in hn| <= |hb|
  {
    assert bix.keys[..|bix.keys|] == bix.keys;
    SubsetCard(set h | h in hb && h !in hn, set h | h in hb);
    SetCardAtMostLength(hb);
  }

  lemma {:induction false} SubsetCard<T>(a: set<T>, b: set<T>)
    requires a <= b
    ensures |a| <= |b|
    decreases |b|
  {
    if a != {} {
      var x :| x in a;
      SubsetCard(a - {x}, b - {x});
    }
  }

  /** Every distinct base hash the new side lacks is reported. */
  lemma CompareCovers(base: seq<Block>, next: seq<Block>)
    ensures forall h :: h in Hashes(base) && h !in Hashes(next) ==>
      Reported(Hashes(base), base, (Compare(base, next).removed, Compare(base, next).modified), h)
  {
    var hb, hn := Hashes(base), Hashes(next);
    var bix, nix := BlockMap(base), BlockMap(next);
    CompareUnfold(base, next);
    BlockMapFacts(base);
    BlockMapFacts(next);
    var r := BasePass(base, next, bix, nix, |bix.keys|);
    assert (Compare(base, next).removed, Compare(base, next).modified) == r;
    BasePassCovers(hb, hn, base, next, bix, nix, |bix.keys|);
    AllMissingKeys(hb, hn, bix);
    forall h | h in hb && h !in hn ensures Reported(hb, base, r, h) {
      assert h in MissingKeys(hn, bix, |bix.keys|);
    }
  }

  /** Two last positions of the same hash are the same position. */
  lemma LastWithHashUnique(hs: seq<string>, i: nat, j: nat)
    requires LastWithHash(hs, i) && LastWithHash(hs, j) && hs[i] == hs[j]
    ensures i == j
  {
  }

  /** One key of `newMap.forEach` at a time: a qualifying block is added once its key is passed. */
  lemma {:induction false} NewPassHas(hn: seq<string>, next: seq<Block>, bix: Index, nix: Index, modified: seq<Modification>, n: nat, j: nat)
    requires KeptAt(hn, nix) && KeysInRange(next, nix) && n <= |nix.keys|
    requires j < |next| && LastWithHash(hn, j) && hn[j] in nix.keys[..n] && hn[j] !in bix.pos && !IsAfter(modified, j)
    ensures next[j] in NewPass(next, bix, nix, modified, n)
    decreases n
  {
    var key := nix.keys[n - 1];
    assert nix.keys[..n] == nix.keys[..n - 1] + [key];
    if hn[j] == key {
      LastWithHashUnique(hn, j, nix.pos[key]);
    } else {
      assert hn[j] in nix.keys[..n - 1];
      NewPassHas(hn, next, bix, nix, modified, n - 1, j);
    }
  }

  /**
   * Every new block that is the last of its hash, whose hash the base lacks, and that no
   * modification names as its `after`, is added; with CompareSound, `added` holds
   * exactly those blocks.
   */
  lemma CompareAddedCovers(base: seq<Block>, next: seq<Block>)
    ensures forall j :: (0 <= j < |next| && LastWithHash(Hashes(next), j) && Hashes(next)[j] !in Hashes(base)
      && !IsAfter(Compare(base, next).modified, j)) ==> next[j] in Compare(base, next).added
  {
    var hb, hn := Hashes(base), Hashes(next);
    var bix, nix := BlockMap(base), BlockMap(next);
    CompareUnfold(base, next);
    BlockMapFacts(base);
    BlockMapFacts(next);
    var r := BasePass(base, next, bix, nix, |bix.keys|);
    NewPassCoversAll(hb, hn, next, bix, nix, r.1);
  }

  lemma NewPassCoversAll(hb: seq<string>, hn: seq<string>, next: seq<Block>, bix: Index, nix: Index, modified: seq<Modification>)
    requires |hn| == |next| && (forall k :: k in bix.pos <==> k in hb) && IsBlockMap(hn, nix) && KeysInRange(next, nix)
    ensures forall j :: (0 <= j < |next| && LastWithHash(hn, j) && hn[j] !in hb && !IsAfter(modified, j)) ==>
      next[j] in NewPass(next, bix, nix, modified, |nix.keys|)
  {
    assert nix.keys[..|nix.keys|] == nix.keys;
    forall j | 0 <= j < |next| && LastWithHash(hn, j) && hn[j] !in hb && !IsAfter(modified, j)
      ensures next[j] in NewPass(next, bix, nix, modified, |nix.keys|)
    {
      assert hn[j] in hn;
      NewPassHas(hn, next, bix, nix, modified, |nix.keys|, j);
    }
  }

  lemma CompareAddedBound(base: seq<Block>, next: seq<Block>)
    ensures |Compare(base, next).added| <= |next|
  {
    var bix, nix := BlockMap(base), BlockMap(next);
    CompareUnfold(base, next);
    BlockMapFacts(base);
    BlockMapFacts(next);
    NewPassSound(Hashes(base), Hashes(next), next, bix, nix, BasePass(base, next, bix, nix, |bix.keys|).1, |nix.keys|);
  }

  lemma {:induction false} BasePassSelf(bs: seq<Block>, bix: Index, n: nat)
    requires KeysInRange(bs, bix) && n <= |bix.keys|
    ensures BasePass(bs, bs, bix, bix, n) == ([], [])
    decreases n
  {
    if n > 0 {
      BasePassSelf(bs, bix, n - 1);
    }
  }

  lemma {:induction false} NewPassSelf(bs: seq<Block>, bix: Index, modified: seq<Modification>, n: nat)
    requires KeysInRange(bs, bix) && n <= |bix.keys|
    ensures NewPass(bs, bix, bix, modified, n) == []
    decreases n
  {
    if n > 0 {
      NewPassSelf(bs, bix, modified, n - 1);
    }
  }

  /** Comparing a block list with itself reports nothing. */
  lemma CompareSelf(bs: seq<Block>)
    ensures Compare(bs, bs) == Comparison([], [], [])
  {
    var bix := BlockMap(bs);
    BasePassSelf(bs, bix, |bix.keys|);
    NewPassSelf(bs, bix, [], |bix.keys|);
  }

  // ---------------------------------------------------------------------------
  // formatBlockDiff and computeDiff

  /** `getBlockPrefix`. */
  function BlockPrefix(b: Block): (r: string)
    ensures r == [] <==> b.kind !in {Heading, ListItem, Separator, CodeBlock}
    ensures r != [] ==> r[|r| - 1] == ' '
    ensures '|' !in b.marker ==> '|' !in r
  {
    match b.kind
    case Heading => Repeat('#', b.level) + " "
    case ListItem => b.marker + " "
    case Separator => "--- "
    case CodeBlock => "``` "
    case _ => ""
  }

  /** `Math.round(x * 100)`: JavaScript rounds halves upwards. */
  function RoundPercent(x: real): (r: int)
    ensures (r as real) - 0.5 <= x * 100.0 < (r as real) + 0.5
    ensures 0.0 <= x <= 1.0 ==> 0 <= r <= 100
  {
    (x * 100.0 + 0.5).Floor
  }

  function RemovedToken(b: Block): string { "- " + BlockPrefix(b) + b.content }
  function AddedToken(b: Block): string { "+ " + BlockPrefix(b) + b.content }

  function ModifiedTokens(m: Modification): seq<string> {
    ["~ " + BlockPrefix(m.before) + "[" + IntToString(RoundPercent(m.similarity)) + "% similar]",
     "  - " + m.before.content,
     "  + " + m.after.content]
  }

  function RemovedTokens(removed: seq<Block>): (r: seq<string>)
    ensures |r| == |removed|
    decreases |removed|
  {
    if |removed| == 0 then [] else RemovedTokens(removed[..|removed| - 1]) + [RemovedToken(removed[|removed| - 1])]
  }

  function AddedTokens(added: seq<Block>): (r: seq<string>)
    ensures |r| == |added|
    decreases |added|
  {
    if |added| == 0 then [] else AddedTokens(added[..|added| - 1]) + [AddedToken(added[|added| - 1])]
  }

  function ModificationTokens(modified: seq<Modification>): (r: seq<string>)
    ensures |r| == 3 * |modified|
    decreases |modified|
  {
    if |modified| == 0 then []
    else ModificationTokens(modified[..|modified| - 1]) + ModifiedTokens(modified[|modified| - 1])
  }

  /** The entries `formatBlockDiff` pushes: removals, then additions, then three per modification. */
  function DiffTokens(added: seq<Block>, removed: seq<Block>, modified: seq<Modification>): (r: seq<string>)
    ensures |r| == |removed| + |added| + 3 * |modified|
  {
    RemovedTokens(removed) + AddedTokens(added) + ModificationTokens(modified)
  }

  /** `formatBlockDiff`. */
  method FormatBlockDiff(added: seq<Block>, removed: seq<Block>, modified: seq<Modification>) returns (r: string)
    ensures r == Join(DiffTokens(added, removed, modified), " | ")
  {
    var diff: seq<string> := [];
    diff := PushRemoved(diff, removed);
    assert diff == RemovedTokens(removed);
    diff := PushAdded(diff, added);
    diff := PushModified(diff, modified);
    assert diff == DiffTokens(added, removed, modified);
    r := Join(diff, " | ");
  }

  /** `removed.forEach(block => diff.push(...))`. */
  method PushRemoved(diff0: seq<string>, removed: seq<Block>) returns (diff: seq<string>)
    ensures diff == diff0 + RemovedTokens(removed)
  {
    diff := diff0;
    for i := 0 to |removed|
      invariant diff == diff0 + RemovedTokens(removed[..i])
    {
      assert removed[..i + 1][..i] == removed[..i];
      var prefix := BlockPrefix(removed[i]);
      diff := diff + ["- " + prefix + removed[i].content];
    }
    assert removed[..|removed|] == removed;
  }

  /** `added.forEach(block => diff.push(...))`. */
  method PushAdded(diff0: seq<string>, added: seq<Block>) returns (diff: seq<string>)
    ensures diff == diff0 + AddedTokens(added)
  {
    diff := diff0;
    for i := 0 to |added|
      invariant diff == diff0 + AddedTokens(added[..i])
    {
      assert added[..i + 1][..i] == added[..i];
      var prefix := BlockPrefix(added[i]);
      diff := diff + ["+ " + prefix + added[i].content];
    }
    assert added[..|added|] == added;
  }

  lemma ModificationTokensStep(modified: seq<Modification>, i: nat, diff0: seq<string>, before: seq<string>, after: seq<string>)
    requires i < |modified| && before == diff0 + ModificationTokens(modified[..i])
    requires after == before + ModifiedTokens(modified[i])
    ensures after == diff0 + ModificationTokens(modified[..i + 1])
  {
    var p := modified[..i + 1];
    assert p[..|p| - 1] == modified[..i] && p[|p| - 1] == modified[i];
    assert ModificationTokens(p) == ModificationTokens(modified[..i]) + ModifiedTokens(modified[i]);
    TokensAssoc(diff0, ModificationTokens(modified[..i]), ModifiedTokens(modified[i]));
  }

  lemma TokensAssoc(a: seq<string>, b: seq<string>, c: seq<string>)
    ensures (a + b) + c == a + (b + c)
  {
  }

  /** `modified.forEach(mod => { diff.push(...); diff.push(...); diff.push(...) })`. */
  method PushModified(diff0: seq<string>, modified: seq<Modification>) returns (diff: seq<string>)
    ensures diff == diff0 + ModificationTokens(modified)
  {
    diff := diff0;
    for i := 0 to |modified|
      invariant diff == diff0 + ModificationTokens(modified[..i])
    {
      var mod := modified[i];
      var prefix := BlockPrefix(mod.before);
      var similarity := RoundPercent(mod.similarity);
      ghost var before := diff;
      diff := diff + ["~ " + prefix + "[" + IntToString(similarity) + "% similar]"];
      diff := diff + ["  - " + mod.before.content];
      diff := diff + ["  + " + mod.after.content];
      ModificationTokensStep(modified, i, diff0, before, diff);
    }
    assert modified[..|modified|] == modified;
  }

  /** Every entry starts with `-`, `+`, `~` or a space followed by `-`/`+`. */
  lemma DiffTokensHead(added: seq<Block>, removed: seq<Block>, modified: seq<Modification>)
    requires |removed| + |added| + |modified| > 0
    ensures DiffTokens(added, removed, modified)[0] != []
    ensures !IsWhitespace(DiffTokens(added, removed, modified)[0][0])
  {
    var t := DiffTokens(added, removed, modified);
    if |removed| > 0 {
      RemovedTokensHead(removed);
    } else if |added| > 0 {
      AddedTokensHead(added);
      assert t[0] == AddedTokens(added)[0];
    } else {
      ModificationTokensHead(modified);
      assert t[0] == ModificationTokens(modified)[0];
    }
  }

  lemma {:induction false} RemovedTokensHead(removed: seq<Block>)
    requires |removed| > 0
    ensures RemovedTokens(removed)[0] == RemovedToken(removed[0])
    decreases |removed|
  {
    if |removed| > 1 {
      RemovedTokensHead(removed[..|removed| - 1]);
    }
  }

  lemma {:induction false} AddedTokensHead(added: seq<Block>)
    requires |added| > 0
    ensures AddedTokens(added)[0] == AddedToken(added[0])
    decreases |added|
  {
    if |added| > 1 {
      AddedTokensHead(added[..|added| - 1]);
    }
  }

  lemma {:induction false} ModificationTokensHead(modified: seq<Modification>)
    requires |modified| > 0
    ensures ModificationTokens(modified)[0] == ModifiedTokens(modified[0])[0]
    decreases |modified|
  {
    if |modified| > 1 {
      ModificationTokensHead(modified[..|modified| - 1]);
    }
  }

  lemma JoinHead(parts: seq<string>, sep: string)
    requires |parts| > 0 && parts[0] != []
    ensures Join(parts, sep) != [] && Join(parts, sep)[0] == parts[0][0]
  {
  }

  /**
   * The formatted diff is blank (`diff.trim() === ''`) exactly when nothing was added,
   * removed or modified.
   */
  lemma FormatBlankIff(added: seq<Block>, removed: seq<Block>, modified: seq<Modification>)
    ensures Trim(Join(DiffTokens(added, removed, modified), " | ")) == []
      <==> added == [] && removed == [] && modified == []
  {
    var t := DiffTokens(added, removed, modified);
    if |removed| + |added| + |modified| > 0 {
      DiffTokensHead(added, removed, modified);
      JoinHead(t, " | ");
      assert !AllWhitespace(Join(t, " | "));
    }
  }

  /** No character of `s` is a `|`. */
  predicate BarFree(s: string) {
    forall i :: 0 <= i < |s| ==> s[i] != '|'
  }

  /** The blocks behind a diff carry no `|` of their own. */
  predicate NoBar(added: seq<Block>, removed: seq<Block>, modified: seq<Modification>) {
    && (forall b :: b in added + removed ==> BarFree(b.content) && BarFree(b.marker))
    && (forall m :: m in modified ==> BarFree(m.before.content) && BarFree(m.before.marker) && BarFree(m.after.content))
  }

  lemma PrefixBarFree(b: Block)
    requires BarFree(b.marker)
    ensures BarFree(BlockPrefix(b))
  {
  }

  lemma {:induction false} RemovedTokensBarFree(removed: seq<Block>)
    requires forall b :: b in removed ==> BarFree(b.content) && BarFree(b.marker)
    ensures forall t :: t in RemovedTokens(removed) ==> BarFree(t)
    decreases |removed|
  {
    if |removed| > 0 {
      var b := removed[|removed| - 1];
      assert b in removed;
      PrefixBarFree(b);
      RemovedTokensBarFree(removed[..|removed| - 1]);
    }
  }

  lemma {:induction false} AddedTokensBarFree(added: seq<Block>)
    requires forall b :: b in added ==> BarFree(b.content) && BarFree(b.marker)
    ensures forall t :: t in AddedTokens(added) ==> BarFree(t)
    decreases |added|
  {
    if |added| > 0 {
      var b := added[|added| - 1];
      assert b in added;
      PrefixBarFree(b);
      AddedTokensBarFree(added[..|added| - 1]);
    }
  }

  lemma ModifiedTokensBarFree(m: Modification)
    requires BarFree(m.before.content) && BarFree(m.before.marker) && BarFree(m.after.content)
    ensures forall t :: t in ModifiedTokens(m) ==> BarFree(t)
  {
    PrefixBarFree(m.before);
    var n := RoundPercent(m.similarity);
    assert BarFree(IntToString(n)) by {
      if n < 0 {
        assert IntToString(n) == "-" + NatToString(-n);
      }
    }
  }

  lemma {:induction false} ModificationTokensBarFree(modified: seq<Modification>)
    requires forall m :: m in modified ==> BarFree(m.before.content) && BarFree(m.before.marker) && BarFree(m.after.content)
    ensures forall t :: t in ModificationTokens(modified) ==> BarFree(t)
    decreases |modified|
  {
    if |modified| > 0 {
      var m := modified[|modified| - 1];
      assert m in modified;
      ModifiedTokensBarFree(m);
      ModificationTokensBarFree(modified[..|modified| - 1]);
    }
  }

  /** Splitting the formatted diff on `' | '` gives back its entries when no block holds a `|`. */
  lemma FormatSplits(added: seq<Block>, removed: seq<Block>, modified: seq<Modification>)
    requires |removed| + |added| + |modified| > 0
    requires NoBar(added, removed, modified)
    ensures Split(Join(DiffTokens(added, removed, modified), " | "), " | ") == DiffTokens(added, removed, modified)
  {
    var t := DiffTokens(added, removed, modified);
    assert forall b :: b in removed ==> b in added + removed;
    assert forall b :: b in added ==> b in added + removed;
    RemovedTokensBarFree(removed);
    AddedTokensBarFree(added);
    ModificationTokensBarFree(modified);
    assert forall p :: p in t ==> BarFree(p);
    SplitJoin(t, " | ", 1);
  }

  // ---------------------------------------------------------------------------
  // computeDiff

  datatype DiffMetrics = DiffMetrics(
    baseBlocksCount: nat, newBlocksCount: nat,
    addedCount: nat, removedCount: nat, modifiedCount: nat, unchangedCount: nat)

  datatype DiffResult = DiffResult(diff: string, metrics: DiffMetrics)

  const NoMetrics := DiffMetrics(0, 0, 0, 0, 0, 0)

  function Max0(x: int): nat { if x < 0 then 0 else x }
  function Min(x: int, y: int): int { if x <= y then x else y }

  /** `computeDiff`. */
  function Diff(baseContent: string, newContent: string): DiffResult {
    if baseContent == newContent then DiffResult("", NoMetrics)
    else
      var baseBlocks := Parse(baseContent);
      var newBlocks := Parse(newContent);
      var c := Compare(baseBlocks, newBlocks);
      DiffResult(
        Join(DiffTokens(c.added, c.removed, c.modified), " | "),
        DiffMetrics(|baseBlocks|, |newBlocks|, |c.added|, |c.removed|, |c.modified|,
          Max0(Min(|baseBlocks|, |newBlocks|) - |c.modified|)))
  }

  /** `computeDiff`. */
  method ComputeDiff(baseContent: string, newContent: string) returns (r: DiffResult)
    ensures r == Diff(baseContent, newContent)
  {
    if baseContent == newContent {
      return DiffResult("", NoMetrics);
    }
    var baseBlocks := ParseMarkdownBlocks(baseContent);
    var newBlocks := ParseMarkdownBlocks(newContent);
    var added, removed, modified := CompareBlocks(baseBlocks, newBlocks);
    var unchangedCount := Max0(Min(|baseBlocks|, |newBlocks|) - |modified|);
    var diff := FormatBlockDiff(added, removed, modified);
    DiffOfParts(baseContent, newContent, baseBlocks, newBlocks, Comparison(added, removed, modified));
    r := DiffResult(diff, DiffMetrics(|baseBlocks|, |newBlocks|, |added|, |removed|, |modified|, unchangedCount));
  }

  lemma DiffOfParts(baseContent: string, newContent: string, baseBlocks: seq<Block>, newBlocks: seq<Block>, c: Comparison)
    requires baseContent != newContent && baseBlocks == Parse(baseContent) && newBlocks == Parse(newContent)
    requires c == Compare(baseBlocks, newBlocks)
    ensures Diff(baseContent, newContent) == DiffResult(
      Join(DiffTokens(c.added, c.removed, c.modified), " | "),
      DiffMetrics(|baseBlocks|, |newBlocks|, |c.added|, |c.removed|, |c.modified|,
        Max0(Min(|baseBlocks|, |newBlocks|) - |c.modified|)))
  {
  }

  /** The diff text is blank exactly when no block was added, removed or modified. */
  lemma DiffBlankIff(baseContent: string, newContent: string)
    ensures var m := Diff(baseContent, newContent).metrics;
      Trim(Diff(baseContent, newContent).diff) == [] <==> m.addedCount + m.removedCount + m.modifiedCount == 0
  {
    if baseContent != newContent {
      var c := Compare(Parse(baseContent), Parse(newContent));
      FormatBlankIff(c.added, c.removed, c.modified);
    }
  }

  /** The counts never exceed the block counts they are drawn from. */
  lemma DiffMetricsBounds(baseContent: string, newContent: string)
    ensures var m := Diff(baseContent, newContent).metrics;
      && m.removedCount + m.modifiedCount <= m.baseBlocksCount
      && m.addedCount <= m.newBlocksCount
      && m.unchangedCount <= m.baseBlocksCount && m.unchangedCount <= m.newBlocksCount
  {
    if baseContent != newContent {
      CompareCounts(Parse(baseContent), Parse(newContent));
      CompareAddedBound(Parse(baseContent), Parse(newContent));
    }
  }

  /**
   * Two snapshots that differ only in ways the parser does not see (whitespace between
   * blocks, say) give an empty diff with every block counted as unchanged.
   */
  lemma DiffSameBlocks(baseContent: string, newContent: string)
    requires baseContent != newContent && Parse(baseContent) == Parse(newContent)
    ensures Diff(baseContent, newContent) ==
      DiffResult("", DiffMetrics(|Parse(baseContent)|, |Parse(baseContent)|, 0, 0, 0, |Parse(baseContent)|))
  {
    CompareSelf(Parse(baseContent));
  }
}
