/**
  The hash tree the node keeps: what every node's hash is (a reference
  definition over the leaves), folding a leaf with its siblings, and the default
  hashes of empty subtrees (core/merkleTree.go, core/merkleProof.go).
 */
module MerkleTree {
  import opened Bytes
  import opened Paths

  function Child(q: Path, b: nat): (c: Path)
    ensures |c| == |q| + 1 && q <= c
  {
    q + [Digit(b)]
  }

  /** The hash of node q of the tree of depth d whose i-th leaf hashes to leaves[i]. */
  function NodeHash(k: Keccak, d: nat, leaves: seq<ByteArray>, q: Path): ByteArray
    requires |leaves| == Pow2(d) && |q| <= d
    decreases d - |q|
  {
    if |q| == d then leaves[Val(q)]
    else GetParent(k, NodeHash(k, d, leaves, Child(q, 0)), NodeHash(k, d, leaves, Child(q, 1)))
  }

  function Ancestor(path: string, i: nat): string
    requires i <= |path|
  {
    path[..|path| - i]
  }

  /** The siblings met on the way from path to the root. */
  function Witness(k: Keccak, d: nat, leaves: seq<ByteArray>, path: Path): (w: seq<ByteArray>)
    requires |leaves| == Pow2(d) && |path| <= d
    ensures |w| == |path|
  {
    seq(|path|, i requires 0 <= i < |path| => NodeHash(k, d, leaves, GetOtherChild(Ancestor(path, i))))
  }

  /** The block hashed in step i of the fold: the bit of the path says which side we are on. */
  function Block(k: Keccak, path: string, leaf: ByteArray, wit: seq<ByteArray>, i: nat): seq<byte>
    requires 1 <= i <= |wit| && i <= |path|
    decreases i, 0
  {
    var node := Climb(k, path, leaf, wit, i - 1);
    if GetNthBitFromRight(path, i - 1) == 0 then EncodeChildren(node, wit[i - 1])
    else EncodeChildren(wit[i - 1], node)
  }

  /** The hash reached from leaf after i steps towards the root. */
  function Climb(k: Keccak, path: string, leaf: ByteArray, wit: seq<ByteArray>, i: nat): ByteArray
    requires i <= |wit| && i <= |path|
    decreases i, 1
  {
    if i == 0 then leaf else k(Block(k, path, leaf, wit, i))
  }

  function FoldRoot(k: Keccak, path: string, leaf: ByteArray, wit: seq<ByteArray>): ByteArray
    requires |wit| == |path|
  {
    Climb(k, path, leaf, wit, |path|)
  }

  /** The length down to which nodes have been rewritten after i steps from path. */
  ghost function Top(path: string, i: nat): nat
    requires i <= |path|
  {
    if i == 0 then |path| + 1 else |path| - i
  }

  // ---- Only the leaves below a node matter ----

  predicate Below(d: nat, q: string, n: nat) {
    q <= PathOf(n, d)
  }

  predicate AgreeOutside(d: nat, a: seq<ByteArray>, b: seq<ByteArray>, path: string)
    requires |a| == |b| == Pow2(d)
  {
    forall n: nat | n < Pow2(d) && !Below(d, path, n) :: a[n] == b[n]
  }

  lemma {:induction false} NodeHashIsLocal(k: Keccak, d: nat, a: seq<ByteArray>, b: seq<ByteArray>, q: Path)
    requires |a| == |b| == Pow2(d) && |q| <= d
    requires forall n: nat | n < Pow2(d) && Below(d, q, n) :: a[n] == b[n]
    ensures NodeHash(k, d, a, q) == NodeHash(k, d, b, q)
    decreases d - |q|
  {
    if |q| == d {
      PathOfVal(q);
      assert Below(d, q, Val(q));
    } else {
      assert forall n: nat, c | Below(d, Child(q, c), n) :: Below(d, q, n);
      NodeHashIsLocal(k, d, a, b, Child(q, 0));
      NodeHashIsLocal(k, d, a, b, Child(q, 1));
    }
  }

  lemma PrefixesCompare(a: string, b: string, p: string)
    ensures a <= p && b <= p ==> a <= b || b <= a
  {
    if a <= p && b <= p {
      assert a == p[..|a|] && b == p[..|b|];
    }
  }

  /** A node that is neither above nor below the replaced subtree keeps its hash. */
  lemma UnrelatedNodeKeepsHash(k: Keccak, d: nat, a: seq<ByteArray>, b: seq<ByteArray>, path: Path, q: Path)
    requires |a| == |b| == Pow2(d) && |path| <= d && |q| <= d
    requires AgreeOutside(d, a, b, path)
    requires !(path <= q) && !(q <= path)
    ensures NodeHash(k, d, a, q) == NodeHash(k, d, b, q)
  {
    forall n: nat | n < Pow2(d) && Below(d, q, n) ensures a[n] == b[n] {
      PrefixesCompare(path, q, PathOf(n, d));
    }
    NodeHashIsLocal(k, d, a, b, q);
  }

  lemma SiblingIsUnrelated(path: Path, i: nat)
    requires i < |path|
    ensures var s := GetOtherChild(Ancestor(path, i)); !(path <= s) && !(s <= path)
    ensures |GetOtherChild(Ancestor(path, i))| == |path| - i
  {
    var s := GetOtherChild(Ancestor(path, i));
    assert s[|path| - i - 1] != path[|path| - i - 1];
  }

  /**
    Folding the new hash of a subtree with the OLD siblings gives every ancestor
    its hash in the NEW tree: one root-ward path is enough. With b == a this says
    that a leaf and its stored siblings fold to the stored root.
   */
  lemma {:induction false} ClimbReachesAncestor(k: Keccak, d: nat, a: seq<ByteArray>, b: seq<ByteArray>, path: Path,
                                                i: nat)
    requires |a| == |b| == Pow2(d) && i <= |path| <= d
    requires AgreeOutside(d, a, b, path)
    ensures Climb(k, path, NodeHash(k, d, b, path), Witness(k, d, a, path), i)
         == NodeHash(k, d, b, Ancestor(path, i))
  {
    if i == 0 {
      assert Ancestor(path, 0) == path;
    } else {
      ClimbReachesAncestor(k, d, a, b, path, i - 1);
      SiblingIsUnrelated(path, i - 1);
      UnrelatedNodeKeepsHash(k, d, a, b, path, GetOtherChild(Ancestor(path, i - 1)));
      ChildrenOfAncestor(path, i);
    }
  }

  lemma ChildrenOfAncestor(path: Path, i: nat)
    requires 1 <= i <= |path|
    ensures var bit := GetNthBitFromRight(path, i - 1);
      Ancestor(path, i - 1) == Child(Ancestor(path, i), bit)
      && GetOtherChild(Ancestor(path, i - 1)) == Child(Ancestor(path, i), 1 - bit)
  {
    assert Ancestor(path, i - 1) == Ancestor(path, i) + [path[|path| - i]];
  }

  // ---- Soundness: what a root commits to ----

  /**
    Two proofs for one path with one root: where they differ, this step of the
    fold hashes two different blocks to the same value.
   */
  function CollidingStep(k: Keccak, path: string, leaf: ByteArray, wit: seq<ByteArray>,
                         leaf': ByteArray, wit': seq<ByteArray>, i: nat): (j: nat)
    requires i <= |wit| == |wit'| && i <= |path|
    requires Climb(k, path, leaf, wit, i) == Climb(k, path, leaf', wit', i)
    requires leaf != leaf' || wit[..i] != wit'[..i]
    ensures 1 <= j <= i
    ensures Collision(k, Block(k, path, leaf, wit, j), Block(k, path, leaf', wit', j))
  {
    SplitBlock(k, path, leaf, wit, leaf', wit', i);
    if Block(k, path, leaf, wit, i) != Block(k, path, leaf', wit', i) then i
    else CollidingStep(k, path, leaf, wit, leaf', wit', i - 1)
  }

  lemma SplitBlock(k: Keccak, path: string, leaf: ByteArray, wit: seq<ByteArray>,
                   leaf': ByteArray, wit': seq<ByteArray>, i: nat)
    requires i <= |wit| == |wit'| && i <= |path|
    requires leaf != leaf' || wit[..i] != wit'[..i]
    requires Climb(k, path, leaf, wit, i) == Climb(k, path, leaf', wit', i)
    ensures i >= 1
    ensures Block(k, path, leaf, wit, i) == Block(k, path, leaf', wit', i) ==>
      Climb(k, path, leaf, wit, i - 1) == Climb(k, path, leaf', wit', i - 1)
      && (leaf != leaf' || wit[..i - 1] != wit'[..i - 1])
  {
    assert wit[..0] == wit'[..0];
    var x, y := Climb(k, path, leaf, wit, i - 1), wit[i - 1];
    var x', y' := Climb(k, path, leaf', wit', i - 1), wit'[i - 1];
    assert EncodeChildren(x, y)[..32] == x && EncodeChildren(x, y)[32..] == y;
    assert EncodeChildren(y, x)[..32] == y && EncodeChildren(y, x)[32..] == x;
    assert EncodeChildren(x', y')[..32] == x' && EncodeChildren(x', y')[32..] == y';
    assert EncodeChildren(y', x')[..32] == y' && EncodeChildren(y', x')[32..] == x';
    assert wit[..i] == wit[..i - 1] + [y] && wit'[..i] == wit'[..i - 1] + [y'];
  }

  predicate FoldsCollide(k: Keccak, path: string, leaf: ByteArray, wit: seq<ByteArray>,
                         leaf': ByteArray, wit': seq<ByteArray>)
    requires |wit| == |wit'| == |path|
  {
    exists j | 1 <= j <= |path| ::
      Collision(k, Block(k, path, leaf, wit, j), Block(k, path, leaf', wit', j))
  }

  /** Equal roots at equal paths: the proofs are the same exactly when no step of the two folds collides. */
  lemma ProofsAreBinding(k: Keccak, path: string, leaf: ByteArray, wit: seq<ByteArray>,
                         leaf': ByteArray, wit': seq<ByteArray>)
    requires |wit| == |wit'| == |path|
    requires FoldRoot(k, path, leaf, wit) == FoldRoot(k, path, leaf', wit')
    ensures leaf == leaf' && wit == wit' <==> !FoldsCollide(k, path, leaf, wit, leaf', wit')
  {
    assert wit[..|path|] == wit && wit'[..|path|] == wit';
    if leaf != leaf' || wit != wit' {
      var j := CollidingStep(k, path, leaf, wit, leaf', wit', |path|);
    }
  }

  // ---- Subtrees as lists of leaves ----

  /** The root of 2^h hashes, splitting the list in the middle. */
  function MerkleRoot(k: Keccak, h: nat, xs: seq<ByteArray>): ByteArray
    requires |xs| == Pow2(h)
  {
    if h == 0 then xs[0]
    else GetParent(k, MerkleRoot(k, h - 1, xs[..Pow2(h - 1)]), MerkleRoot(k, h - 1, xs[Pow2(h - 1)..]))
  }

  function First(d: nat, q: string): nat
    requires |q| <= d
  {
    Val(q) * Pow2(d - |q|)
  }

  lemma SpanFits(d: nat, q: string)
    requires |q| <= d
    ensures First(d, q) + Pow2(d - |q|) <= Pow2(d)
  {
    Pow2Adds(|q|, d - |q|);
    var w := Pow2(d - |q|);
    assert (Val(q) + 1) * w <= Pow2(|q|) * w by { TimesMonotonic(Val(q) + 1, Pow2(|q|), w); }
  }

  lemma TimesMonotonic(a: nat, b: nat, w: nat)
    requires a <= b
    ensures a * w <= b * w
  {
  }

  /** The leaves below node q, in order. */
  function Span(d: nat, leaves: seq<ByteArray>, q: string): (s: seq<ByteArray>)
    requires |leaves| == Pow2(d) && |q| <= d
    ensures |s| == Pow2(d - |q|)
  {
    SpanFits(d, q);
    leaves[First(d, q)..First(d, q) + Pow2(d - |q|)]
  }

  lemma SpanOfChildren(d: nat, leaves: seq<ByteArray>, q: Path)
    requires |leaves| == Pow2(d) && |q| < d
    ensures Span(d, leaves, q)[..Pow2(d - |q| - 1)] == Span(d, leaves, Child(q, 0))
    ensures Span(d, leaves, q)[Pow2(d - |q| - 1)..] == Span(d, leaves, Child(q, 1))
  {
    var w := Pow2(d - |q| - 1);
    FirstOfChild(d, q, 0);
    FirstOfChild(d, q, 1);
    SpanFits(d, q);
    var f := First(d, q);
    assert leaves[f..f + 2 * w][..w] == leaves[f..f + w];
    assert leaves[f..f + 2 * w][w..] == leaves[f + w..f + 2 * w];
  }

  lemma FirstOfChild(d: nat, q: Path, b: nat)
    requires |q| < d && b < 2
    ensures First(d, Child(q, b)) == First(d, q) + b * Pow2(d - |q| - 1)
  {
    var w := Pow2(d - |q| - 1);
    assert Child(q, b)[..|q|] == q;
    assert Val(Child(q, b)) == 2 * Val(q) + b;
    Distribute(Val(q), b, w);
  }

  lemma Distribute(v: nat, b: nat, w: nat)
    ensures (2 * v + b) * w == v * (2 * w) + b * w
  {
  }

  /** A node's hash is the root of the list of the leaves below it. */
  lemma {:induction false} NodeHashIsMerkleRoot(k: Keccak, d: nat, leaves: seq<ByteArray>, q: Path)
    requires |leaves| == Pow2(d) && |q| <= d
    ensures NodeHash(k, d, leaves, q) == MerkleRoot(k, d - |q|, Span(d, leaves, q))
    decreases d - |q|
  {
    if |q| < d {
      SpanOfChildren(d, leaves, q);
      NodeHashIsMerkleRoot(k, d, leaves, Child(q, 0));
      NodeHashIsMerkleRoot(k, d, leaves, Child(q, 1));
    }
  }

  // ---- Empty subtrees ----

  /** keccak of 32 zero bytes, the mark of an empty leaf. */
  const ZERO_VALUE_LEAF: ByteArray := Words(
    [0x29, 0x0d, 0xec, 0xd9], [0x54, 0x8b, 0x62, 0xa8], [0xd6, 0x03, 0x45, 0xa9], [0x88, 0x38, 0x6f, 0xc8],
    [0x4b, 0xa6, 0xbc, 0x95], [0x48, 0x40, 0x08, 0xf6], [0x36, 0x2f, 0x93, 0x16], [0x0e, 0xf3, 0xe5, 0x63])

  function Words<T>(a: seq<T>, b: seq<T>, c: seq<T>, d: seq<T>, e: seq<T>, f: seq<T>, g: seq<T>, h: seq<T>): (w: seq<T>)
    ensures |w| == |a| + |b| + |c| + |d| + |e| + |f| + |g| + |h|
  {
    a + (b + (c + (d + (e + (f + (g + h))))))
  }

  /** It is what the code reads from its text, here eight digits at a time. */
  lemma ZeroLeafReads()
    ensures HexToByteArray("0x" + Words(
      "290decd9", "548b62a8", "d60345a9", "88386fc8", "4ba6bc95", "484008f6", "362f9316", "0ef3e563"))
      == Some(ZERO_VALUE_LEAF)
  {
    FirstWords();
    LastWords();
    hide Encode;
    EncodeWords([0x29, 0x0d, 0xec, 0xd9], [0x54, 0x8b, 0x62, 0xa8], [0xd6, 0x03, 0x45, 0xa9], [0x88, 0x38, 0x6f, 0xc8],
                [0x4b, 0xa6, 0xbc, 0x95], [0x48, 0x40, 0x08, 0xf6], [0x36, 0x2f, 0x93, 0x16], [0x0e, 0xf3, 0xe5, 0x63]);
    HexRoundTrip(ZERO_VALUE_LEAF);
  }

  lemma EncodeWords(a: seq<byte>, b: seq<byte>, c: seq<byte>, d: seq<byte>,
                    e: seq<byte>, f: seq<byte>, g: seq<byte>, h: seq<byte>)
    ensures Encode(Words(a, b, c, d, e, f, g, h))
      == Words(Encode(a), Encode(b), Encode(c), Encode(d), Encode(e), Encode(f), Encode(g), Encode(h))
  {
    hide Encode;
    EncodeConcat(g, h);
    EncodeConcat(f, g + h);
    EncodeConcat(e, f + (g + h));
    EncodeConcat(d, e + (f + (g + h)));
    EncodeConcat(c, d + (e + (f + (g + h))));
    EncodeConcat(b, c + (d + (e + (f + (g + h)))));
    EncodeConcat(a, b + (c + (d + (e + (f + (g + h))))));
  }

  lemma FirstWords()
    ensures Encode([0x29, 0x0d, 0xec, 0xd9]) == "290decd9"
    ensures Encode([0x54, 0x8b, 0x62, 0xa8]) == "548b62a8"
    ensures Encode([0xd6, 0x03, 0x45, 0xa9]) == "d60345a9"
    ensures Encode([0x88, 0x38, 0x6f, 0xc8]) == "88386fc8"
  {
    hide Encode;
    EncodeWord(0x29, 0x0d, 0xec, 0xd9);
    EncodeWord(0x54, 0x8b, 0x62, 0xa8);
    EncodeWord(0xd6, 0x03, 0x45, 0xa9);
    EncodeWord(0x88, 0x38, 0x6f, 0xc8);
  }

  lemma LastWords()
    ensures Encode([0x4b, 0xa6, 0xbc, 0x95]) == "4ba6bc95"
    ensures Encode([0x48, 0x40, 0x08, 0xf6]) == "484008f6"
    ensures Encode([0x36, 0x2f, 0x93, 0x16]) == "362f9316"
    ensures Encode([0x0e, 0xf3, 0xe5, 0x63]) == "0ef3e563"
  {
    hide Encode;
    EncodeWord(0x4b, 0xa6, 0xbc, 0x95);
    EncodeWord(0x48, 0x40, 0x08, 0xf6);
    EncodeWord(0x36, 0x2f, 0x93, 0x16);
    EncodeWord(0x0e, 0xf3, 0xe5, 0x63);
  }

  function DefaultHash(k: Keccak, h: nat): ByteArray {
    if h == 0 then ZERO_VALUE_LEAF else GetParent(k, DefaultHash(k, h - 1), DefaultHash(k, h - 1))
  }

  /** The source indexes entry 0 unconditionally, so it needs depth >= 1. */
  method GenDefaultHashes(k: Keccak, depth: nat) returns (hashes: array<ByteArray>)
    requires depth >= 1
    ensures fresh(hashes) && hashes.Length == depth
    ensures forall h :: 0 <= h < depth ==> hashes[h] == DefaultHash(k, h)
  {
    hashes := new ByteArray[depth];
    hashes[0] := ZERO_VALUE_LEAF;
    for i := 1 to depth
      invariant forall h :: 0 <= h < i ==> hashes[h] == DefaultHash(k, h)
    {
      hashes[i] := GetParent(k, hashes[i - 1], hashes[i - 1]);
    }
  }

  predicate Vacant(d: nat, leaves: seq<ByteArray>, q: string)
    requires |leaves| == Pow2(d)
  {
    forall n: nat | n < Pow2(d) && Below(d, q, n) :: leaves[n] == ZERO_VALUE_LEAF
  }

  lemma {:induction false} VacantByHalves(d: nat, leaves: seq<ByteArray>, q: Path)
    requires |leaves| == Pow2(d) && |q| <= d
    ensures |q| == d ==> (Vacant(d, leaves, q) <==> leaves[Val(q)] == ZERO_VALUE_LEAF)
    ensures |q| < d ==> (Vacant(d, leaves, q) <==>
      Vacant(d, leaves, Child(q, 0)) && Vacant(d, leaves, Child(q, 1)))
  {
    if |q| == d {
      PathOfVal(q);
      forall n: nat | n < Pow2(d) && Below(d, q, n) ensures n == Val(q) {
        assert PathOf(n, d) == q;
        ValPathOf(n, d);
      }
      assert Below(d, q, Val(q));
    } else {
      forall n: nat | n < Pow2(d)
        ensures Below(d, q, n) <==> Below(d, Child(q, 0), n) || Below(d, Child(q, 1), n)
      {
        PrefixByChild(q, PathOf(n, d));
      }
    }
  }

  lemma PrefixByChild(q: Path, p: Path)
    requires |q| < |p|
    ensures q <= p <==> Child(q, 0) <= p || Child(q, 1) <= p
  {
    if q <= p {
      assert p[..|q| + 1] == q + [p[|q|]];
      assert p[..|q| + 1] == Child(q, Bit(p[|q|]));
    }
  }

  /** The block hashed at inner node q. */
  function NodeBlock(k: Keccak, d: nat, leaves: seq<ByteArray>, q: Path): seq<byte>
    requires |leaves| == Pow2(d) && |q| < d
  {
    EncodeChildren(NodeHash(k, d, leaves, Child(q, 0)), NodeHash(k, d, leaves, Child(q, 1)))
  }

  function DefaultBlock(k: Keccak, h: nat): seq<byte>
    requires h >= 1
  {
    EncodeChildren(DefaultHash(k, h - 1), DefaultHash(k, h - 1))
  }

  lemma {:induction false} VacantHasDefaultHash(k: Keccak, d: nat, leaves: seq<ByteArray>, q: Path)
    requires |leaves| == Pow2(d) && |q| <= d
    requires Vacant(d, leaves, q)
    ensures NodeHash(k, d, leaves, q) == DefaultHash(k, d - |q|)
    decreases d - |q|
  {
    VacantByHalves(d, leaves, q);
    if |q| < d {
      VacantHasDefaultHash(k, d, leaves, Child(q, 0));
      VacantHasDefaultHash(k, d, leaves, Child(q, 1));
    }
  }

  /** A node with a default hash above a leaf that is not empty: below it some block collides. */
  lemma {:induction false} OccupiedCollision(k: Keccak, d: nat, leaves: seq<ByteArray>, q: Path) returns (p: Path)
    requires |leaves| == Pow2(d) && |q| <= d
    requires NodeHash(k, d, leaves, q) == DefaultHash(k, d - |q|)
    requires !Vacant(d, leaves, q)
    ensures q <= p && |p| < d
    ensures Collision(k, NodeBlock(k, d, leaves, p), DefaultBlock(k, d - |p|))
    decreases d - |q|
  {
    hide NodeHash, DefaultHash, Vacant, Collision, NodeBlock, DefaultBlock;
    var c := OccupiedChild(k, d, leaves, q);
    if Collision(k, NodeBlock(k, d, leaves, q), DefaultBlock(k, d - |q|)) {
      p := q;
    } else {
      p := OccupiedCollision(k, d, leaves, c);
      PrefixTransitive(q, c, p);
    }
  }

  lemma PrefixTransitive(a: string, b: string, c: string)
    requires a <= b <= c
    ensures a <= c
  {
  }

  function OccupiedChild(k: Keccak, d: nat, leaves: seq<ByteArray>, q: Path): (c: Path)
    requires |leaves| == Pow2(d) && |q| <= d
    requires NodeHash(k, d, leaves, q) == DefaultHash(k, d - |q|)
    requires !Vacant(d, leaves, q)
    ensures |q| < d && q <= c && |c| == |q| + 1 && !Vacant(d, leaves, c)
    ensures !Collision(k, NodeBlock(k, d, leaves, q), DefaultBlock(k, d - |q|)) ==>
      NodeHash(k, d, leaves, c) == DefaultHash(k, d - |c|)
  {
    VacantByHalves(d, leaves, q);
    BlocksOfDefault(k, d, leaves, q);
    if Vacant(d, leaves, Child(q, 0)) then Child(q, 1) else Child(q, 0)
  }

  lemma BlocksOfDefault(k: Keccak, d: nat, leaves: seq<ByteArray>, q: Path)
    requires |leaves| == Pow2(d) && |q| < d
    requires NodeHash(k, d, leaves, q) == DefaultHash(k, d - |q|)
    ensures Collision(k, NodeBlock(k, d, leaves, q), DefaultBlock(k, d - |q|)) <==>
      NodeHash(k, d, leaves, Child(q, 0)) != DefaultHash(k, d - |q| - 1)
      || NodeHash(k, d, leaves, Child(q, 1)) != DefaultHash(k, d - |q| - 1)
  {
    var l, r := NodeHash(k, d, leaves, Child(q, 0)), NodeHash(k, d, leaves, Child(q, 1));
    var z := DefaultHash(k, d - |q| - 1);
    if l != z || r != z { ParentsCollide(k, l, r, z, z); }
  }

  lemma VacantNodeBlock(k: Keccak, d: nat, leaves: seq<ByteArray>, q: Path, p: Path)
    requires |leaves| == Pow2(d) && q <= p && |p| < d && Vacant(d, leaves, q)
    ensures NodeBlock(k, d, leaves, p) == DefaultBlock(k, d - |p|)
  {
    hide NodeHash, DefaultHash, Pow2, PathOf;
    forall n: nat | n < Pow2(d) && Below(d, p, n) ensures Below(d, q, n) {}
    VacantByHalves(d, leaves, p);
    VacantHasDefaultHash(k, d, leaves, Child(p, 0));
    VacantHasDefaultHash(k, d, leaves, Child(p, 1));
  }

  /**
    For a node with the default hash of its height: every leaf below is empty
    exactly when no block below it collides with a default block. A node above
    empty leaves only always has that hash.
   */
  lemma DefaultHashMeansVacant(k: Keccak, d: nat, leaves: seq<ByteArray>, q: Path)
    requires |leaves| == Pow2(d) && |q| <= d
    ensures Vacant(d, leaves, q) <==>
      NodeHash(k, d, leaves, q) == DefaultHash(k, d - |q|)
      && forall p: Path | q <= p && |p| < d :: !Collision(k, NodeBlock(k, d, leaves, p), DefaultBlock(k, d - |p|))
  {
    hide NodeHash, DefaultHash, Pow2, Vacant, NodeBlock, DefaultBlock;
    if Vacant(d, leaves, q) {
      VacantHasDefaultHash(k, d, leaves, q);
      forall p: Path | q <= p && |p| < d
        ensures !Collision(k, NodeBlock(k, d, leaves, p), DefaultBlock(k, d - |p|))
      {
        VacantNodeBlock(k, d, leaves, q, p);
      }
    } else if NodeHash(k, d, leaves, q) == DefaultHash(k, d - |q|) {
      var p := OccupiedCollision(k, d, leaves, q);
    }
  }
}
