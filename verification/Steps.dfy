/** What each elementary step of the evaluator does to the ownership
    invariant. */
module Steps {
  import opened Heaps
  import opened Mir
  import opened DropGlue
  import opened CloneGlue
  import opened Places

  /** Writing `w` into a slot exchanges what the block holds. */
  lemma WrittenContent(b: Block, path: seq<nat>, w: Value)
    requires (b.Elems? && path != []) || b.Storage?
    requires Get(Root(b), path).Some?
    requires b.Storage? && !b.owned ==> !Owning(b.val) && !Owning(w)
    ensures Content(Written(b, path, w)) + Owners(Get(Root(b), path).value) == Content(b) + Owners(w)
    ensures Written(b, path, w).Elems? == b.Elems? && Written(b, path, w).Storage? == b.Storage?
    ensures Owners(Get(Root(b), path).value) <= Content(b)
  {
    PutOwners(Root(b), path, w);
    RootOwners(b);
    if b.Storage? && !b.owned {
      NotOwning(w);
    }
    hide Owners, Get, Put;
  }

  /** Opening a chain whose last block has been rewritten. */
  lemma OpenedRewritten(h: Heap, f: Heap, roots: multiset<Handle>, ow: multiset<Handle>, gone: multiset<Handle>, chain: seq<nat>)
    requires Chained(h, chain) && Distinct(chain) && |h| == |f| && ow <= roots
    requires var a := chain[|chain| - 1];
      && (forall b :: b in chain && 0 < b <= |h| && b != a ==> f[b - 1] == h[b - 1])
      && f[a - 1].Elems? == h[a - 1].Elems? && f[a - 1].Storage? == h[a - 1].Storage?
      && Content(f[a - 1]) + gone == Content(h[a - 1]) + ow
    ensures Chained(f, chain)
    ensures Opened(f, roots - ow, chain) + gone == Opened(h, roots, chain)
  {
    hide Content;
    var k := |chain| - 1;
    var a := chain[k];
    assert roots - ow + ow == roots;
    if k == 0 {
      Rebase(roots, ow, Content(f[a - 1]), gone, Content(h[a - 1]));
    } else {
      var front := chain[..k];
      LinkedFront(h, chain);
      assert forall b :: b in front ==> b in chain && b != a;
      OpenedSame(f, h, roots - ow, front);
      OpenedAdd(h, roots - ow, ow, front);
      assert chain[k - 1] == front[k - 1] && front[k - 1] in front;
      assert Linked(f, chain[k - 1], a);
      ChainedFront(h, roots, chain);
      ChainedFront(f, roots - ow, chain);
      Rearrange(Opened(f, roots - ow, front), SliceH(a), Content(f[a - 1]), gone, Content(h[a - 1]), ow);
    }
  }

  lemma Rebase(roots: multiset<Handle>, ow: multiset<Handle>, cf: multiset<Handle>, gone: multiset<Handle>, ch: multiset<Handle>)
    requires ow <= roots && cf + gone == ch + ow
    ensures roots - ow + cf + gone == roots + ch
  {
    forall y ensures (roots - ow + cf + gone)[y] == (roots + ch)[y] {
      assert (cf + gone)[y] == (ch + ow)[y];
    }
  }

  lemma Rearrange(base: multiset<Handle>, x: Handle, cf: multiset<Handle>, gone: multiset<Handle>, ch: multiset<Handle>, ow: multiset<Handle>)
    requires x in base && cf + gone == ch + ow
    ensures base - multiset{x} + cf + gone == base + ow - multiset{x} + ch
  {
    forall y ensures (base - multiset{x} + cf + gone)[y] == (base + ow - multiset{x} + ch)[y] {
      assert (cf + gone)[y] == (ch + ow)[y];
    }
  }

  /** Dropping what a slot holds, with the slot's block and those before it open. */
  lemma DropInChain(h: Heap, roots: multiset<Handle>, loc: Loc)
    requires Sound(h, {}, roots) && Places.Settled(h, loc)
    ensures Drop(h, {}, Load(h, loc.slot).value).Ok?
    ensures var g := Drop(h, {}, Load(h, loc.slot).value).value;
      && |g| == |h| && (forall c :: c in loc.chain && 0 < c <= |h| ==> g[c - 1] == h[c - 1])
      && Sound(g, Members(loc.chain), Opened(h, roots, loc.chain) - Owners(Load(h, loc.slot).value))
    ensures Distinct(loc.chain)
  {
    hide Sound, Content, Opened, Distinct;
    var chain := loc.chain;
    var v := Load(h, loc.slot).value;
    OpenChain(h, roots, chain);
    ChainDistinct(h, roots, chain);
    ChainBlocks(h, chain);
    SlotOwners(h, loc);
    OpenedLast(h, roots, chain);
    assert Owners(v) <= Content(h[loc.slot.block - 1]) <= Opened(h, roots, chain);
    hide Chained;
    DropSound(h, {}, Members(chain), Opened(h, roots, chain), v);
    var g := Drop(h, {}, v).value;
    forall c | c in chain && 0 < c <= |h| ensures g[c - 1] == h[c - 1] {
      assert c - 1 + 1 in Members(chain);
    }
  }

  /** Overwriting a slot: the old value is dropped in place, then the new one,
      which was a root, is stored. */
  lemma AssignAt(h: Heap, roots: multiset<Handle>, loc: Loc, w: Value)
    requires Sound(h, {}, roots) && Places.Settled(h, loc) && Owners(w) <= roots
    requires var b := h[loc.slot.block - 1]; b.Storage? && !b.owned ==> !Owning(w)
    ensures Drop(h, {}, Load(h, loc.slot).value).Ok?
    ensures var g := Drop(h, {}, Load(h, loc.slot).value).value;
      && |g| == |h| && g[loc.slot.block - 1] == h[loc.slot.block - 1]
      && Sound(g[loc.slot.block - 1 := Written(h[loc.slot.block - 1], loc.slot.path, w)], {}, roots - Owners(w))
  {
    hide Sound, Content, Opened, Distinct, Members, Drop;
    var chain, a := loc.chain, loc.slot.block;
    var v := Load(h, loc.slot).value;
    ChainBlocks(h, chain);
    WrittenContent(h[a - 1], loc.slot.path, w);
    DropInChain(h, roots, loc);
    hide Sound, Content, Written, Opened, Chained, Distinct, Members, Drop;
    var g := Drop(h, {}, v).value;
    assert a in chain && g[a - 1] == h[a - 1];
    InMembers(chain, a);
    StoreInChain(h, g, roots, chain, Written(h[a - 1], loc.slot.path, w), Owners(v), Owners(w));
  }

  lemma InMembers(chain: seq<nat>, a: nat)
    requires a in chain
    ensures a in Members(chain)
  {
  }

  /** Rewriting the last block of an open chain and closing the chain. */
  lemma StoreInChain(h: Heap, g: Heap, roots: multiset<Handle>, chain: seq<nat>, b: Block, gone: multiset<Handle>, came: multiset<Handle>)
    requires Chained(h, chain) && Distinct(chain) && |g| == |h| && came <= roots && chain[|chain| - 1] in Members(chain)
    requires forall c :: c in chain && 0 < c <= |h| ==> g[c - 1] == h[c - 1]
    requires Sound(g, Members(chain), Opened(h, roots, chain) - gone)
    requires var old_ := h[chain[|chain| - 1] - 1];
      && (old_.Storage? || old_.Elems?) && b.Elems? == old_.Elems? && b.Storage? == old_.Storage?
      && Content(b) + gone == Content(old_) + came
    ensures Sound(g[chain[|chain| - 1] - 1 := b], {}, roots - came)
  {
    var a := chain[|chain| - 1];
    assert a in chain && g[a - 1] == h[a - 1];
    hide Sound, Content, Opened, Chained, Distinct, Members;
    var f := g[a - 1 := b];
    Rewrite(g, Members(chain), Opened(h, roots, chain) - gone, a, b);
    OpenedRewritten(h, f, roots, came, gone, chain);
    Less(Opened(f, roots - came, chain), gone);
    CloseChain(f, roots - came, chain);
  }

  lemma Less(all: multiset<Handle>, gone: multiset<Handle>)
    ensures all + gone - gone == all
  {
  }

  // ---------------------------------------------------------------
  // locals
  // ---------------------------------------------------------------

  /** Changing what a local's storage holds exchanges roots. */
  lemma Restore(h: Heap, roots: multiset<Handle>, a: nat, b: Block, roots': multiset<Handle>)
    requires Sound(h, {}, roots) && 0 < a <= |h| && h[a - 1].Storage? && (b.Storage? || b.Freed?)
    requires roots' + Content(b) == roots + Content(h[a - 1])
    ensures Sound(h[a - 1 := b], {}, roots')
  {
    hide Sound, Content;
    Heaps.Open(h, {}, roots, a);
    assert {} + {a} == {a};
    Rewrite(h, {a}, roots + Content(h[a - 1]), a, b);
    Shut(h[a - 1 := b], {a}, roots' + Content(b), a);
    assert {a} - {a} == {};
    assert roots' + Content(b) - Content(b) == roots';
  }

  /** Moving out of a local: its flag is cleared and the value is in flight. */
  lemma TakeLocal(h: Heap, roots: multiset<Handle>, a: nat)
    requires Sound(h, {}, roots) && 0 < a <= |h| && h[a - 1].Storage? && h[a - 1].owned
    ensures Sound(h[a - 1 := Storage(h[a - 1].val, false)], {}, roots + Owners(h[a - 1].val))
  {
    hide Sound;
    var v := h[a - 1].val;
    assert roots + Owners(v) + multiset{} == roots + Owners(v);
    Restore(h, roots, a, Storage(v, false), roots + Owners(v));
  }

  /** Storing into a local whose flag is clear. */
  lemma StoreLocal(h: Heap, roots: multiset<Handle>, a: nat, v: Value, own: bool)
    requires Sound(h, {}, roots) && 0 < a <= |h| && h[a - 1].Storage? && !h[a - 1].owned
    requires own ==> Owners(v) <= roots
    ensures Sound(h[a - 1 := Storage(v, own)], {}, if own then roots - Owners(v) else roots)
  {
    hide Sound;
    var roots' := if own then roots - Owners(v) else roots;
    assert roots' + Content(Storage(v, own)) == roots + Content(h[a - 1]);
    Restore(h, roots, a, Storage(v, own), roots');
  }

  /** Dropping a flagged local. */
  lemma DropOwnedLocal(h: Heap, roots: multiset<Handle>, a: nat)
    requires Sound(h, {}, roots) && 0 < a <= |h| && h[a - 1].Storage? && h[a - 1].owned
    ensures Drop(h, {}, h[a - 1].val).Ok?
    ensures var g := Drop(h, {}, h[a - 1].val).value;
      |g| == |h| && g[a - 1] == h[a - 1] && Sound(g[a - 1 := Storage(h[a - 1].val, false)], {}, roots)
  {
    hide Sound;
    var v := h[a - 1].val;
    Heaps.Open(h, {}, roots, a);
    assert {} + {a} == {a};
    DropSound(h, {}, {a}, roots + Owners(v), v);
    var g := Drop(h, {}, v).value;
    assert a - 1 + 1 in {a};
    assert roots + Owners(v) - Owners(v) == roots;
    Rewrite(g, {a}, roots, a, Storage(v, false));
    Shut(g[a - 1 := Storage(v, false)], {a}, roots, a);
    assert {a} - {a} == {};
    assert roots - multiset{} == roots;
  }

  /** Giving a local's storage back; what it still owned is lost. */
  lemma FreeLocal(h: Heap, roots: multiset<Handle>, a: nat)
    requires Sound(h, {}, roots) && 0 < a <= |h| && h[a - 1].Storage?
    ensures Sound(h[a - 1 := Freed], {}, roots + Content(h[a - 1]))
  {
    hide Sound;
    assert roots + Content(h[a - 1]) + multiset{} == roots + Content(h[a - 1]);
    Restore(h, roots, a, Freed, roots + Content(h[a - 1]));
  }

  /** A block that owns nothing and needs no owner: a constant, a fresh local. */
  lemma AllocPlain(h: Heap, roots: multiset<Handle>, b: Block)
    requires Sound(h, {}, roots) && !Owned(b) && Content(b) == multiset{}
    ensures Sound(h + [b], {}, roots)
  {
    hide Sound;
    Allocate(h, {}, roots, b);
    assert {} + {|h| + 1} == {|h| + 1};
    Shut(h + [b], {|h| + 1}, roots, |h| + 1);
    assert {|h| + 1} - {|h| + 1} == {};
    assert roots - multiset{} == roots;
  }

  // ---------------------------------------------------------------
  // cells
  // ---------------------------------------------------------------

  lemma NewCell(h: Heap, roots: multiset<Handle>)
    ensures Sound(h, {}, roots) ==> Sound(h + [CellBox(1, VUnit)], {}, roots + multiset{CellH(|h| + 1)})
  {
    hide Sound;
    if Sound(h, {}, roots) {
      var a := |h| + 1;
      Allocate(h, {}, roots, CellBox(0, VUnit));
      assert {} + {a} == {a};
      var g := h + [CellBox(0, VUnit)];
      Share(g, {a}, roots, a);
      assert g[a - 1 := CellBox(1, VUnit)] == h + [CellBox(1, VUnit)];
      Shut(h + [CellBox(1, VUnit)], {a}, roots + multiset{CellH(a)}, a);
      assert {a} - {a} == {};
      assert roots + multiset{CellH(a)} - multiset{} == roots + multiset{CellH(a)};
    }
  }

  /** Replacing what a cell holds: the new value goes in, the old one is in
      flight. */
  lemma SwapCell(h: Heap, roots: multiset<Handle>, a: nat, w: Value)
    requires Sound(h, {}, roots) && 0 < a <= |h| && h[a - 1].CellBox? && h[a - 1].count > 0 && Owners(w) <= roots
    ensures Sound(h[a - 1 := CellBox(h[a - 1].count, w)], {}, roots - Owners(w) + Owners(h[a - 1].val))
  {
    hide Sound;
    var v := h[a - 1].val;
    Heaps.Open(h, {}, roots, a);
    assert {} + {a} == {a};
    var g := h[a - 1 := CellBox(h[a - 1].count, w)];
    Rewrite(h, {a}, roots + Owners(v), a, CellBox(h[a - 1].count, w));
    Shut(g, {a}, roots + Owners(v), a);
    assert {a} - {a} == {};
    assert roots + Owners(v) - Owners(w) == roots - Owners(w) + Owners(v);
  }

  /** Cloning what a cell holds, while it stays in the cell. */
  lemma CloneFromCell(h: Heap, roots: multiset<Handle>, a: nat)
    requires Sound(h, {}, roots) && 0 < a <= |h| && h[a - 1].CellBox? && h[a - 1].count > 0
    ensures Clone(h, |h|, {}, h[a - 1].val).Ok?
    ensures var (g, w) := Clone(h, |h|, {}, h[a - 1].val).value; Sound(g, {}, roots + Owners(w))
  {
    hide Balanced, Counted, NoGarbage;
    var v := h[a - 1].val;
    Heaps.Open(h, {}, roots, a);
    assert {} + {a} == {a};
    BalancedWithin(h, roots);
    assert UpTo(Owners(v), |h|) by {
      assert Content(h[a - 1]) == Owners(v);
    }
    CloneSound(h, |h|, {}, {a}, roots + Owners(v), v);
    var (g, w) := Clone(h, |h|, {}, v).value;
    assert Bumped(g[a - 1], h[a - 1]);
    Shut(g, {a}, roots + Owners(v) + Owners(w), a);
    assert {a} - {a} == {};
    assert roots + Owners(v) + Owners(w) - Owners(v) == roots + Owners(w);
  }

  /** Copying a string constant. */
  lemma CloneConstant(h: Heap, roots: multiset<Handle>, a: nat)
    requires Sound(h, {}, roots) && 0 < a <= |h| && h[a - 1].Data?
    ensures Clone(h, |h|, {}, VStr(a)).Ok?
    ensures var (g, w) := Clone(h, |h|, {}, VStr(a)).value; Sound(g, {}, roots + Owners(w))
  {
    hide Sound;
    Adopt(h, {}, roots, StrH(|h| + 1), Data(h[a - 1].bytes, false));
  }
}
