/** The partial Merkle tree as an object: traversals that push to its vectors, and cursors over them. */
module MerkleTree {
  import opened Bits
  import opened Merkle

  class PartialMerkleTree {
    const f: HashFn
    var nTransactions: nat
    var vBits: seq<bool>
    var vHash: seq<Hash>
    var fBad: bool

    function Contents(): Part
      reads this
    {
      Part(vBits, vHash)
    }

    /** The height of the tree. */
    method CalcHeight() returns (h: nat)
      ensures h == Height(nTransactions)
    {
      h := 0;
      while Width(nTransactions, h) > 1
        invariant HeightFrom(nTransactions, h) == Height(nTransactions)
        decreases Width(nTransactions, h)
      {
        h := h + 1;
      }
    }

    constructor FromBlock(f: HashFn, txids: seq<Hash>, match_: seq<bool>)
      requires |txids| == |match_| > 0
      ensures nTransactions == |txids| && !fBad && Contents() == Tree(f, txids, match_) && this.f == f
    {
      hide Build;
      this.f, nTransactions, fBad := f, |txids|, false;
      vBits, vHash := [], [];
      new;
      var h := CalcHeight();
      TraverseAndBuild(h, 0, txids, match_);
      assert [] + Tree(f, txids, match_).bits == Tree(f, txids, match_).bits;
      assert [] + Tree(f, txids, match_).hashes == Tree(f, txids, match_).hashes;
    }

    /** The tree read from a stream. */
    constructor FromStream(f: HashFn, n: nat, hashes: seq<Hash>, bytes: seq<bv8>)
      ensures nTransactions == n && !fBad && Contents() == Part(Unpack(bytes), hashes) && this.f == f
    {
      this.f, nTransactions, vHash, fBad := f, n, hashes, false;
      var bits := new bool[8 * |bytes|];
      for p := 0 to bits.Length
        invariant bits.Length == 8 * |bytes| && bits[..p] == Unpack(bytes)[..p]
      {
        bits[p] := HasBit(bytes[p / 8], p % 8);
        assert bits[..p + 1] == bits[..p] + [bits[p]];
      }
      vBits := bits[..];
    }

    /** The flag bits as bytes, least significant bit first. */
    method PackBits() returns (bytes: seq<bv8>)
      ensures Packed(vBits, bytes)
    {
      var b := new bv8[(|vBits| + 7) / 8](i => 0);
      for p := 0 to |vBits|
        invariant b.Length == (|vBits| + 7) / 8
        invariant forall q :: 0 <= q < 8 * b.Length ==> HasBit(b[q / 8], q % 8) == (q < p && vBits[q])
      {
        if vBits[p] {
          var m := OrBit(b[p / 8], p % 8);
          b[p / 8] := m;
        }
      }
      bytes := b[..];
    }

    /** Looks for a match among the leaves below a node. */
    method IsParentOfMatch(h: nat, pos: nat, match_: seq<bool>) returns (r: bool)
      requires nTransactions == |match_| && pos < Width(nTransactions, h)
      ensures r == ParentOfMatch(match_, h, pos)
    {
      r := false;
      var p := First(nTransactions, h, pos);
      ghost var lo, hi := p, First(nTransactions, h, pos + 1);
      StartMono(h, pos, pos + 1);
      while p < Start(h, pos + 1) && p < nTransactions
        invariant lo <= p <= hi && r == exists q :: lo <= q < p && match_[q]
        decreases nTransactions - p
      {
        r := r || match_[p];
        p := p + 1;
      }
      AnyMatch(match_, h, pos);
    }

    method TraverseAndBuild(h: nat, pos: nat, txids: seq<Hash>, match_: seq<bool>)
      requires nTransactions == |txids| == |match_| && pos < Width(nTransactions, h)
      modifies this`vBits, this`vHash
      ensures Contents() == old(Contents()).Then(Build(f, txids, match_, h, pos))
      decreases h
    {
      ghost var before := Contents();
      var fParentOfMatch := IsParentOfMatch(h, pos, match_);
      vBits := vBits + [fParentOfMatch];
      if h == 0 || !fParentOfMatch {
        vHash := vHash + [CalcHash(f, txids, h, pos)];
      } else {
        ghost var top, l := Part([true], []), Build(f, txids, match_, h - 1, pos * 2);
        assert Contents() == before.Then(top);
        TraverseAndBuild(h - 1, pos * 2, txids, match_);
        ThenAssociates(before, top, l);
        if pos * 2 + 1 < Width(nTransactions, h - 1) {
          TraverseAndBuild(h - 1, pos * 2 + 1, txids, match_);
          ThenAssociates(before, top.Then(l), Build(f, txids, match_, h - 1, pos * 2 + 1));
        }
      }
    }

    lemma ThenAssociates(a: Part, b: Part, c: Part)
      ensures a.Then(b).Then(c) == a.Then(b.Then(c))
    {
      assert a.bits + b.bits + c.bits == a.bits + (b.bits + c.bits);
      assert a.hashes + b.hashes + c.hashes == a.hashes + (b.hashes + c.hashes);
    }

    method TraverseAndExtract(h: nat, pos: nat, nBitsUsed: nat, nHashUsed: nat, vMatch: seq<Hash>, vnIndex: seq<nat>)
      returns (hash: Hash, bitsUsed: nat, hashUsed: nat, found: seq<Hash>, indexes: seq<nat>)
      modifies this`fBad
      ensures Found(hash, bitsUsed, hashUsed, found, indexes, fBad)
           == Extract(f, nTransactions, Contents(), h, pos, nBitsUsed, nHashUsed).After(vMatch, vnIndex, old(fBad))
      decreases h, 1
    {
      hash, bitsUsed, hashUsed, found, indexes := ZERO, nBitsUsed, nHashUsed, vMatch, vnIndex;
      if nBitsUsed >= |vBits| {
        fBad := true;
        return;
      }
      var fParentOfMatch := vBits[nBitsUsed];
      if h == 0 || !fParentOfMatch {
        bitsUsed := nBitsUsed + 1;
        if nHashUsed >= |vHash| {
          fBad := true;
          return;
        }
        hash := vHash[nHashUsed];
        hashUsed := nHashUsed + 1;
        if h == 0 && fParentOfMatch {
          found, indexes := vMatch + [hash], vnIndex + [pos];
        }
      } else {
        hash, bitsUsed, hashUsed, found, indexes := Descend(h, pos, nBitsUsed, nHashUsed, vMatch, vnIndex);
      }
    }

    /** The recursive case of TraverseAndExtract. */
    method Descend(h: nat, pos: nat, nBitsUsed: nat, nHashUsed: nat, vMatch: seq<Hash>, vnIndex: seq<nat>)
      returns (hash: Hash, bitsUsed: nat, hashUsed: nat, found: seq<Hash>, indexes: seq<nat>)
      requires h > 0 && nBitsUsed < |vBits| && vBits[nBitsUsed]
      modifies this`fBad
      ensures Found(hash, bitsUsed, hashUsed, found, indexes, fBad)
           == Extract(f, nTransactions, Contents(), h, pos, nBitsUsed, nHashUsed).After(vMatch, vnIndex, old(fBad))
      decreases h, 0
    {
      var left, right;
      ghost var p := Contents();
      Children(f, nTransactions, p, h, pos, nBitsUsed, nHashUsed, vMatch, vnIndex, fBad);
      left, bitsUsed, hashUsed, found, indexes :=
        TraverseAndExtract(h - 1, pos * 2, nBitsUsed + 1, nHashUsed, vMatch, vnIndex);
      assert Contents() == p;
      if pos * 2 + 1 < Width(nTransactions, h - 1) {
        right, bitsUsed, hashUsed, found, indexes :=
          TraverseAndExtract(h - 1, pos * 2 + 1, bitsUsed, hashUsed, found, indexes);
        assert Contents() == p;
        if right == left {
          fBad := true;
        }
      } else {
        right := left;
      }
      hash := f(left, right);
    }

    /** The caller's list of indexes is extended, not replaced; the root is ZERO when anything was bad. */
    method ExtractMatches(vnIndex: seq<nat>) returns (root: Hash, vMatch: seq<Hash>, indexes: seq<nat>)
      modifies this`fBad
      ensures var r := Merkle.ExtractMatches(f, nTransactions, Contents());
        root == (if old(fBad) then ZERO else r.0) && vMatch == r.1 && indexes == vnIndex + r.2
    {
      root, vMatch, indexes := ZERO, [], vnIndex;
      if nTransactions == 0 { return; }
      if nTransactions > MAX_TRANSACTIONS { return; }
      if |vHash| > nTransactions { return; }
      if |vBits| < |vHash| { return; }
      var h := CalcHeight();
      var nBitsUsed, nHashUsed;
      root, nBitsUsed, nHashUsed, vMatch, indexes := TraverseAndExtract(h, 0, 0, 0, vMatch, indexes);
      if fBad || (nBitsUsed + 7) / 8 != (|vBits| + 7) / 8 || nHashUsed != |vHash| {
        root := ZERO;
      }
    }
  }
}
