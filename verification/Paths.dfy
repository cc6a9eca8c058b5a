/**
  Paths in the trees (core/utils.go): strings of '0' and '1' read from the root,
  which stand for leaf indices.
 */
module Paths {
  import opened Bytes

  const UINT64 := 0x1_0000_0000_0000_0000

  type uint64 = n: nat | n < UINT64

  function Pow2(n: nat): (p: nat)
    ensures p >= 1
  {
    if n == 0 then 1 else 2 * Pow2(n - 1)
  }

  lemma {:induction false} Pow2Monotonic(m: nat, n: nat)
    requires m <= n
    ensures Pow2(m) <= Pow2(n)
    ensures m < n ==> 2 * Pow2(m) <= Pow2(n)
  {
    if m < n { Pow2Monotonic(m, n - 1); }
  }

  lemma Pow2Of64()
    ensures Pow2(64) == UINT64
  {
    Doubled(4, 16);
    Doubled(8, 0x100);
    Doubled(16, 0x1_0000);
    Doubled(32, 0x1_0000_0000);
  }

  lemma Doubled(n: nat, p: nat)
    requires Pow2(n) == p
    ensures Pow2(2 * n) == p * p
  {
    Pow2Adds(n, n);
  }

  lemma {:induction false} Pow2Adds(m: nat, n: nat)
    ensures Pow2(m + n) == Pow2(m) * Pow2(n)
  {
    if n > 0 {
      Pow2Adds(m, n - 1);
      assert Pow2(m + n) == 2 * Pow2(m + (n - 1));
      assert 2 * (Pow2(m) * Pow2(n - 1)) == Pow2(m) * (2 * Pow2(n - 1));
    }
  }

  // ---- What a path means ----

  predicate IsPath(p: string) {
    forall i :: 0 <= i < |p| ==> p[i] == '0' || p[i] == '1'
  }

  type Path = p: string | IsPath(p)

  function Bit(c: char): (b: nat)
    ensures b < 2
  {
    if c == '0' then 0 else 1
  }

  function Digit(b: nat): char {
    if b % 2 == 0 then '0' else '1'
  }

  /** The number a path spells in base 2. */
  function Val(p: string): (n: nat)
    ensures n < Pow2(|p|)
  {
    if p == "" then 0 else 2 * Val(p[..|p| - 1]) + Bit(p[|p| - 1])
  }

  /** The d low bits of n, highest first. */
  function PathOf(n: nat, d: nat): (p: Path)
    ensures |p| == d
  {
    if d == 0 then "" else PathOf(n / 2, d - 1) + [Digit(n)]
  }

  lemma {:induction false} ValPathOf(n: nat, d: nat)
    requires n < Pow2(d)
    ensures Val(PathOf(n, d)) == n
  {
    if d > 0 {
      var p := PathOf(n, d);
      assert p[..|p| - 1] == PathOf(n / 2, d - 1);
      ValPathOf(n / 2, d - 1);
    }
  }

  lemma {:induction false} PathOfVal(p: Path)
    ensures PathOf(Val(p), |p|) == p
  {
    if p != "" {
      PathOfVal(p[..|p| - 1]);
      assert p == p[..|p| - 1] + [p[|p| - 1]];
    }
  }

  // ---- The source's operations ----

  /** Any character but '0' counts as 1. The index counts from the right end. */
  function GetNthBitFromRight(path: string, index: nat): nat
    requires index < |path|
  {
    Bit(path[|path| - index - 1])
  }

  function FlipBitInString(s: string, i: nat): (t: string)
    requires i < |s|
    ensures IsPath(s) ==> IsPath(t)
  {
    s[i := if s[i] == '0' then '1' else '0']
  }

  function GetOtherChild(path: string): string
    requires path != ""
  {
    FlipBitInString(path, |path| - 1)
  }

  function GetParentPath(path: string): string {
    if path == "" then "" else path[..|path| - 1]
  }

  /** strconv.FormatUint in base 2: no leading zeros, "0" for zero. */
  function UintToString(a: nat): (s: string)
    ensures s != ""
  {
    if a < 2 then [Digit(a)] else UintToString(a / 2) + [Digit(a)]
  }

  /** strconv.ParseUint in base 2 with 64 bits. */
  function StringToUint(s: string): Option<uint64> {
    if s != "" && IsPath(s) && Val(s) < UINT64 then Some(Val(s)) else None
  }

  function Zeros(n: nat): string {
    seq(n, i => '0')
  }

  /** pad.Left with "0". */
  function LeftPad(s: string, width: nat): string {
    if |s| < width then Zeros(width - |s|) + s else s
  }

  /** uint64 addition wraps. */
  function AddOne(n: uint64): (m: uint64)
    ensures m == if n + 1 == UINT64 then 0 else n + 1
  {
    (n + 1) % UINT64
  }

  /** The next path of the same width. */
  function GetAdjacentNodePath(path: string): Option<string> {
    match StringToUint(path)
    case None => None
    case Some(n) => Some(LeftPad(UintToString(AddOne(n)), |path|))
  }

  /** The number of zeros put in front: a uint64 subtraction, which may wrap. */
  function PadCount(n: uint64, depth: uint64): nat {
    (depth - |UintToString(n)|) % UINT64
  }

  function NodePath(n: uint64, depth: uint64): string {
    Zeros(PadCount(n, depth)) + UintToString(n)
  }

  method SolidityPathToNodePath(path: uint64, depth: uint64) returns (node: string)
    ensures node == NodePath(path, depth)
  {
    var digits := UintToString(path);
    var pad := "";
    var i := 0;
    while i < (depth - |digits|) % UINT64
      invariant 0 <= i <= PadCount(path, depth)
      invariant pad == Zeros(i)
    {
      pad := pad + ['0'];
      i := i + 1;
    }
    node := pad + digits;
  }

  method GenCoordinatorPath(depth: uint64) returns (path: string)
    ensures path == PathOf(0, depth)
  {
    path := "";
    for i := 0 to depth
      invariant path == PathOf(0, i)
    {
      path := path + ['0'];
    }
  }

  // ---- What the operations do to the number ----

  /** FormatUint prints exactly the bits needed. */
  lemma {:induction false} UintToStringIsMinimal(n: nat, d: nat)
    ensures IsPath(UintToString(n)) && Val(UintToString(n)) == n
    ensures |UintToString(n)| <= d <==> d >= 1 && n < Pow2(d)
  {
    if n >= 2 {
      UintToStringIsMinimal(n / 2, if d == 0 then 0 else d - 1);
      var s := UintToString(n);
      assert s[..|s| - 1] == UintToString(n / 2);
    } else if d >= 1 {
      Pow2Monotonic(1, d);
    }
  }

  lemma AtMost64Digits(n: uint64)
    ensures |UintToString(n)| <= 64
  {
    UintToStringIsMinimal(n, 64);
    Pow2Of64();
  }

  lemma {:induction false} PadKeepsValue(n: nat, s: string)
    requires IsPath(s)
    ensures IsPath(Zeros(n) + s) && Val(Zeros(n) + s) == Val(s)
  {
    var t := Zeros(n) + s;
    if s != "" {
      PadKeepsValue(n, s[..|s| - 1]);
      assert t[..|t| - 1] == Zeros(n) + s[..|s| - 1];
    } else if n > 0 {
      PadKeepsValue(n - 1, s);
      assert t[..|t| - 1] == Zeros(n - 1) + s;
    }
  }

  lemma PadCountIs(n: uint64, depth: uint64)
    ensures PadCount(n, depth) ==
      depth - |UintToString(n)| + if |UintToString(n)| <= depth then 0 else UINT64
  {
    AtMost64Digits(n);
    WrapBelow(depth - |UintToString(n)|);
  }

  lemma WrapBelow(m: int)
    requires -64 <= m < UINT64
    ensures m % UINT64 == if m >= 0 then m else m + UINT64
  {
  }

  /**
    SolidityPathToNodePath gives the path of the index exactly when the index
    fits the depth; in all other cases the padding count wraps around and the
    text is longer than the depth.
   */
  lemma NodePathIsPath(n: uint64, depth: uint64)
    ensures IsPath(NodePath(n, depth)) && Val(NodePath(n, depth)) == n
    ensures depth >= 1 && n < Pow2(depth) <==> NodePath(n, depth) == PathOf(n, depth)
    ensures depth >= 1 && n < Pow2(depth) <==> PadCount(n, depth) + |UintToString(n)| < UINT64
    ensures !(depth >= 1 && n < Pow2(depth)) ==> |NodePath(n, depth)| == depth + UINT64
  {
    UintToStringIsMinimal(n, depth);
    PadCountIs(n, depth);
    PadKeepsValue(PadCount(n, depth), UintToString(n));
    PathOfVal(NodePath(n, depth));
  }

  /** Reading a node path back gives the index. */
  lemma StringToUintInverts(n: uint64, depth: uint64)
    ensures StringToUint(NodePath(n, depth)) == Some(n)
  {
    NodePathIsPath(n, depth);
  }

  /** Dropping the last character halves, flipping it moves to the sibling. */
  lemma StepsOnNumbers(p: Path)
    requires p != ""
    ensures IsPath(GetParentPath(p)) && Val(GetParentPath(p)) == Val(p) / 2
    ensures IsPath(GetOtherChild(p)) && GetParentPath(GetOtherChild(p)) == GetParentPath(p)
    ensures Val(GetOtherChild(p)) == if Val(p) % 2 == 0 then Val(p) + 1 else Val(p) - 1
    ensures GetOtherChild(GetOtherChild(p)) == p
  {
    assert GetOtherChild(p)[..|p| - 1] == p[..|p| - 1];
    assert p == p[..|p| - 1] + [p[|p| - 1]];
  }

  lemma {:induction false} NthBitIsBinaryDigit(p: Path, i: nat)
    requires i < |p|
    ensures GetNthBitFromRight(p, i) == Val(p) / Pow2(i) % 2
  {
    if i > 0 {
      var q := p[..|p| - 1];
      assert Val(q) == Val(p) / 2;
      NthBitIsBinaryDigit(q, i - 1);
      HalfFirst(Val(p), i);
      assert GetNthBitFromRight(p, i) == GetNthBitFromRight(q, i - 1);
    }
  }

  lemma HalfFirst(n: nat, i: nat)
    requires i > 0
    ensures n / Pow2(i) == n / 2 / Pow2(i - 1)
  {
    DivDiv(n, Pow2(i - 1));
  }

  lemma DivDiv(n: nat, m: nat)
    requires m > 0
    ensures n / (2 * m) == n / 2 / m
  {
    var q, r := n / 2 / m, n / 2 % m;
    var t := 2 * r + n % 2;
    assert n == q * (2 * m) + t by {
      assert q * (2 * m) == 2 * (q * m);
    }
    QuotientIs(n, 2 * m, q, t);
  }

  lemma QuotientIs(n: nat, m: nat, q: nat, r: nat)
    requires m > 0 && n == q * m + r && r < m
    ensures n / m == q
  {
    var q', r' := n / m, n % m;
    assert (q - q') * m == r' - r;
    if q - q' >= 1 { TimesAtLeast(q - q', m); }
    if q' - q >= 1 { TimesAtLeast(q' - q, m); }
  }

  lemma TimesAtLeast(a: int, m: nat)
    requires a >= 1
    ensures a * m >= m
  {
  }

  /**
    The successor path is the path of the successor exactly when that number
    still has the same width; the last path of a level yields a longer text
    (or, at width 64, wraps to the first).
   */
  lemma AdjacentIsSuccessor(n: uint64, d: nat)
    requires 1 <= d <= 64 && n < Pow2(d)
    ensures GetAdjacentNodePath(PathOf(n, d)).Some?
    ensures n + 1 < Pow2(d) ==> GetAdjacentNodePath(PathOf(n, d)) == Some(PathOf(n + 1, d))
    ensures n + 1 == Pow2(d) && d < 64 ==> |GetAdjacentNodePath(PathOf(n, d)).value| == d + 1
    ensures n + 1 == Pow2(d) && d == 64 ==> GetAdjacentNodePath(PathOf(n, d)) == Some(PathOf(0, d))
  {
    WidthLimit(d);
    AdjacentText(n, d);
    if n + 1 < Pow2(d) {
      PaddedIs(n + 1, d);
    } else if d == 64 {
      PaddedIs(0, d);
    } else {
      UintToStringIsMinimal(n + 1, d);
      UintToStringIsMinimal(n + 1, d + 1);
    }
  }

  lemma AdjacentText(n: uint64, d: nat)
    requires 1 <= d && n < Pow2(d)
    ensures GetAdjacentNodePath(PathOf(n, d)) == Some(LeftPad(UintToString(AddOne(n)), d))
  {
    var p := PathOf(n, d);
    ValPathOf(n, d);
    assert StringToUint(p) == Some(n);
  }

  lemma WidthLimit(d: nat)
    requires d <= 64
    ensures Pow2(d) <= UINT64
    ensures d < 64 ==> Pow2(d + 1) <= UINT64 && Pow2(d) < Pow2(d + 1)
    ensures d == 64 ==> Pow2(d) == UINT64
  {
    Pow2Of64();
    Pow2Monotonic(d, 64);
    if d < 64 { Pow2Monotonic(d + 1, 64); }
  }

  lemma PaddedIs(m: nat, d: nat)
    requires d >= 1 && m < Pow2(d)
    ensures LeftPad(UintToString(m), d) == PathOf(m, d)
  {
    var s := UintToString(m);
    UintToStringIsMinimal(m, d);
    PadKeepsValue(d - |s|, s);
    var t := Zeros(d - |s|) + s;
    assert t == LeftPad(s, d);
    PathOfVal(t);
  }
}
