/** Block.calculateMerkleRoot of src/blockchain/block.js, for an abstract hash of a pair. */
module Merkle {

  type PairHash<!T> = (T, T) -> T

  /** A level of odd length repeats its last hash. */
  function Padded<T>(s: seq<T>): (r: seq<T>)
    requires s != []
    ensures |r| % 2 == 0 && |s| <= |r| <= |s| + 1
  {
    if |s| % 2 == 1 then s + [s[|s| - 1]] else s
  }

  /** The next level: one hash per pair. */
  function Level<T>(h: PairHash<T>, s: seq<T>): (r: seq<T>)
    requires |s| % 2 == 0
    ensures |r| == |s| / 2 && forall i :: 0 <= i < |r| ==> r[i] == h(s[2 * i], s[2 * i + 1])
  {
    seq(|s| / 2, i requires 0 <= i < |s| / 2 => h(s[2 * i], s[2 * i + 1]))
  }

  /** Level by level until one hash is left; a single transaction is still paired with itself. */
  function Root<T>(h: PairHash<T>, s: seq<T>): T
    requires s != []
    decreases |s|
  {
    var up := Level(h, Padded(s));
    if |up| == 1 then up[0] else Root(h, up)
  }

  /** The inner loop: hash the pairs of one level. */
  method HashPairs<T>(h: PairHash<T>, hashes: seq<T>) returns (newHashes: seq<T>)
    requires |hashes| % 2 == 0
    ensures newHashes == Level(h, hashes)
  {
    newHashes := [];
    var i := 0;
    while i < |hashes|
      invariant 0 <= i <= |hashes| && i == 2 * |newHashes|
      invariant forall j :: 0 <= j < |newHashes| ==> newHashes[j] == h(hashes[2 * j], hashes[2 * j + 1])
    {
      var combinedHash := h(hashes[i], hashes[i + 1]);
      newHashes := newHashes + [combinedHash];
      i := i + 2;
    }
  }

  /** The nested loops of calculateMerkleRoot, with the hash of the empty string for an empty block. */
  method CalculateMerkleRoot<T>(h: PairHash<T>, emptyHash: T, txHashes: seq<T>) returns (root: T)
    ensures root == if txHashes == [] then emptyHash else Root(h, txHashes)
  {
    if |txHashes| == 0 {
      return emptyHash;
    }
    var hashes := txHashes;
    if |hashes| % 2 == 1 {
      hashes := hashes + [hashes[|hashes| - 1]];
    }
    while |hashes| > 1
      invariant |hashes| >= 1 && (|hashes| == 1 || |hashes| % 2 == 0)
      invariant if |hashes| == 1 then hashes[0] == Root(h, txHashes)
                else RootOfPadded(h, hashes) == Root(h, txHashes)
      decreases |hashes|
    {
      hashes := HashPairs(h, hashes);
      if |hashes| % 2 == 1 && |hashes| > 1 {
        hashes := hashes + [hashes[|hashes| - 1]];
      }
    }
    return hashes[0];
  }

  /** The root of a level that has already been padded. */
  function RootOfPadded<T>(h: PairHash<T>, s: seq<T>): T
    requires s != [] && |s| % 2 == 0
  {
    var up := Level(h, s);
    if |up| == 1 then up[0] else Root(h, up)
  }

  // ------------------------------------------------------------ the pair tree

  /** The number of nodes k levels above n leaves. */
  function Size(n: nat, k: nat): (r: nat)
    ensures n >= 1 ==> r >= 1
  {
    if k == 0 then n else (Size(n, k - 1) + 1) / 2
  }

  /** Top-down: node i of level k pairs its two children, or its only child with itself at the end of an odd level. */
  function Node<T>(h: PairHash<T>, leaves: seq<T>, k: nat, i: nat): T
    requires leaves != [] && i < Size(|leaves|, k)
    decreases k
  {
    if k == 0 then leaves[i]
    else
      var below := Size(|leaves|, k - 1);
      var right := if 2 * i + 1 < below then 2 * i + 1 else 2 * i;
      h(Node(h, leaves, k - 1, 2 * i), Node(h, leaves, k - 1, right))
  }

  /** The level of the root: at least one, and the first with a single node. */
  function Depth(n: nat): (k: nat)
    requires n >= 1
    ensures k >= 1
    decreases n
  {
    if n <= 2 then 1 else 1 + Depth((n + 1) / 2)
  }

  lemma {:induction false} SizeShift(n: nat, k: nat)
    ensures Size((n + 1) / 2, k) == Size(n, k + 1)
  {
    if k > 0 {
      SizeShift(n, k - 1);
    }
  }

  lemma {:induction false} DepthIsTop(n: nat)
    requires n >= 1
    ensures Size(n, Depth(n)) == 1
    decreases n
  {
    if n <= 2 {
      assert Size(n, 0) == n;
    } else {
      DepthIsTop((n + 1) / 2);
      SizeShift(n, Depth((n + 1) / 2));
    }
  }

  lemma LevelIsFirstNodes<T>(h: PairHash<T>, leaves: seq<T>, i: nat)
    requires leaves != [] && i < (|leaves| + 1) / 2
    ensures |Level(h, Padded(leaves))| == (|leaves| + 1) / 2 == Size(|leaves|, 1)
    ensures Level(h, Padded(leaves))[i] == Node(h, leaves, 1, i)
  {
    assert Size(|leaves|, 0) == |leaves|;
    assert Size(|leaves|, 1) == (Size(|leaves|, 0) + 1) / 2;
    var right := if 2 * i + 1 < |leaves| then 2 * i + 1 else 2 * i;
    assert Node(h, leaves, 1, i) == h(Node(h, leaves, 0, 2 * i), Node(h, leaves, 0, right));
  }

  lemma LevelIsAllFirstNodes<T>(h: PairHash<T>, leaves: seq<T>)
    requires leaves != []
    ensures var up := Level(h, Padded(leaves));
            && |up| == (|leaves| + 1) / 2 == Size(|leaves|, 1)
            && forall j: nat :: j < |up| && j < Size(|leaves|, 1) ==> up[j] == Node(h, leaves, 1, j)
  {
    forall j: nat | j < (|leaves| + 1) / 2
      ensures |Level(h, Padded(leaves))| == (|leaves| + 1) / 2 == Size(|leaves|, 1)
      ensures Level(h, Padded(leaves))[j] == Node(h, leaves, 1, j)
    {
      LevelIsFirstNodes(h, leaves, j);
    }
    LevelIsFirstNodes(h, leaves, 0);
  }

  /** Hashing one level first and building the tree over the result is the same tree. */
  lemma {:induction false} NodeShift<T>(h: PairHash<T>, leaves: seq<T>, up: seq<T>, k: nat, i: nat)
    requires leaves != [] && up != [] && |up| == (|leaves| + 1) / 2
    requires forall j: nat :: j < |up| && j < Size(|leaves|, 1) ==> up[j] == Node(h, leaves, 1, j)
    requires i < Size(|leaves|, k + 1)
    ensures i < Size(|up|, k)
    ensures Node(h, leaves, k + 1, i) == Node(h, up, k, i)
    decreases k
  {
    SizeShift(|leaves|, k);
    if k > 0 {
      SizeShift(|leaves|, k - 1);
      var below := Size(|leaves|, k);
      var right := if 2 * i + 1 < below then 2 * i + 1 else 2 * i;
      NodeShift(h, leaves, up, k - 1, 2 * i);
      NodeShift(h, leaves, up, k - 1, right);
    }
  }

  lemma TopShift<T>(h: PairHash<T>, leaves: seq<T>)
    requires leaves != []
    ensures var up, k := Level(h, Padded(leaves)), Depth(|leaves|);
            && |up| == (|leaves| + 1) / 2
            && Size(|leaves|, k) == 1 && Size(|up|, k - 1) >= 1
            && Node(h, leaves, k, 0) == Node(h, up, k - 1, 0)
  {
    hide Level, Padded, Node, Size, Depth;
    DepthIsTop(|leaves|);
    LevelIsAllFirstNodes(h, leaves);
    NodeShift(h, leaves, Level(h, Padded(leaves)), Depth(|leaves|) - 1, 0);
  }

  /** The level-by-level root is the top of the recursive pair tree. */
  lemma {:induction false} RootIsTreeTop<T>(h: PairHash<T>, leaves: seq<T>)
    requires leaves != []
    ensures Size(|leaves|, Depth(|leaves|)) == 1
    ensures Root(h, leaves) == Node(h, leaves, Depth(|leaves|), 0)
    decreases |leaves|
  {
    hide Level, Padded, Size;
    TopShift(h, leaves);
    var up := Level(h, Padded(leaves));
    if |up| > 1 {
      RootIsTreeTop(h, up);
    }
  }

  // ----------------------------------------------------------------- binding

  /** The pairs a level hashes. */
  function Pairs<T>(s: seq<T>): (r: seq<(T, T)>)
    requires |s| % 2 == 0
    ensures |r| == |s| / 2 && forall i :: 0 <= i < |r| ==> r[i] == (s[2 * i], s[2 * i + 1])
  {
    seq(|s| / 2, i requires 0 <= i < |s| / 2 => (s[2 * i], s[2 * i + 1]))
  }

  /** All pairs that are hashed on the way to the root. */
  function Inputs<T>(h: PairHash<T>, s: seq<T>): seq<(T, T)>
    requires s != []
    decreases |s|
  {
    var up := Level(h, Padded(s));
    Pairs(Padded(s)) + if |up| == 1 then [] else Inputs(h, up)
  }

  /** The two trees hash two different pairs to one value. */
  ghost predicate Collide<T>(h: PairHash<T>, xs: seq<(T, T)>, ys: seq<(T, T)>) {
    exists i, j :: 0 <= i < |xs| && 0 <= j < |ys| && xs[i] != ys[j] && h(xs[i].0, xs[i].1) == h(ys[j].0, ys[j].1)
  }

  lemma CollideMore<T>(h: PairHash<T>, xs: seq<(T, T)>, ys: seq<(T, T)>, xs': seq<(T, T)>, ys': seq<(T, T)>)
    requires Collide(h, xs', ys')
    ensures Collide(h, xs + xs', ys + ys')
  {
    var i, j :| 0 <= i < |xs'| && 0 <= j < |ys'| && xs'[i] != ys'[j]
                && h(xs'[i].0, xs'[i].1) == h(ys'[j].0, ys'[j].1);
    assert (xs + xs')[|xs| + i] == xs'[i] && (ys + ys')[|ys| + j] == ys'[j];
  }

  lemma LevelBinds<T>(h: PairHash<T>, s: seq<T>, t: seq<T>, xs: seq<(T, T)>, ys: seq<(T, T)>)
    requires s != [] && |s| == |t| && Level(h, Padded(s)) == Level(h, Padded(t))
    ensures s == t || Collide(h, Pairs(Padded(s)) + xs, Pairs(Padded(t)) + ys)
  {
    if i :| 0 <= i < |s| && s[i] != t[i] {
      var x, y, j := Padded(s), Padded(t), i / 2;
      assert Level(h, x)[j] == Level(h, y)[j];
      assert (Pairs(x) + xs)[j] == (x[2 * j], x[2 * j + 1]) && (Pairs(y) + ys)[j] == (y[2 * j], y[2 * j + 1]);
    }
  }

  /** Two equally long lists with one root are the same list, or a collision is found among the pairs their trees hash. */
  lemma {:induction false} RootBindsOrCollides<T>(h: PairHash<T>, s: seq<T>, t: seq<T>)
    requires s != [] && |s| == |t| && Root(h, s) == Root(h, t)
    ensures s == t || Collide(h, Inputs(h, s), Inputs(h, t))
    decreases |s|
  {
    hide Collide, Level, Padded, Pairs;
    var x, y := Level(h, Padded(s)), Level(h, Padded(t));
    if |x| > 1 {
      RootBindsOrCollides(h, x, y);
      if x == y {
        LevelBinds(h, s, t, Inputs(h, x), Inputs(h, y));
      } else {
        CollideMore(h, Pairs(Padded(s)), Pairs(Padded(t)), Inputs(h, x), Inputs(h, y));
      }
    } else {
      assert x == [x[0]] && y == [y[0]];
      LevelBinds(h, s, t, [], []);
    }
  }

  ghost predicate Injective<T(!new)>(h: PairHash<T>) {
    forall a, b, c, d :: h(a, b) == h(c, d) ==> a == c && b == d
  }

  /** With an injective pair hash, equally long transaction lists with one root have the same hashes. */
  lemma RootBinds<T(!new)>(h: PairHash<T>, s: seq<T>, t: seq<T>)
    requires Injective(h) && s != [] && |s| == |t|
    ensures Root(h, s) == Root(h, t) <==> s == t
  {
    if Root(h, s) == Root(h, t) {
      RootBindsOrCollides(h, s, t);
    }
  }

  // --------------------------------------- the hash of a concatenation of strings

  /** What the code hashes: one string after the other, with nothing between them. */
  function Concatenating(hash: string -> string): PairHash<string> {
    (a: string, b: string) => hash(a + b)
  }

  predicate AllOfLength(s: seq<string>, n: nat) {
    forall i :: 0 <= i < |s| ==> |s[i]| == n
  }

  lemma {:induction false} InputsOfLength(hash: string -> string, n: nat, s: seq<string>)
    requires (forall x :: |hash(x)| == n) && s != [] && AllOfLength(s, n)
    ensures forall x :: x in Inputs(Concatenating(hash), s) ==> |x.0| == n && |x.1| == n
    decreases |s|
  {
    var h := Concatenating(hash);
    var up := Level(h, Padded(s));
    forall x | x in Pairs(Padded(s)) ensures |x.0| == n && |x.1| == n {
      var i :| 0 <= i < |Pairs(Padded(s))| && Pairs(Padded(s))[i] == x;
    }
    if |up| > 1 {
      InputsOfLength(hash, n, up);
    }
  }

  /** The two trees hash two different strings to one value. */
  ghost predicate StringsCollide(hash: string -> string, xs: seq<(string, string)>, ys: seq<(string, string)>) {
    exists i, j :: 0 <= i < |xs| && 0 <= j < |ys|
                   && xs[i].0 + xs[i].1 != ys[j].0 + ys[j].1 && hash(xs[i].0 + xs[i].1) == hash(ys[j].0 + ys[j].1)
  }

  lemma ConcatenationsDiffer(a: string, b: string, c: string, d: string)
    requires |a| == |c| && a + b == c + d
    ensures a == c && b == d
  {
    assert (a + b)[..|a|] == a && (a + b)[|a|..] == b;
    assert (c + d)[..|c|] == c && (c + d)[|c|..] == d;
  }

  /**
   * With hashes of one length everywhere, equally long lists with one root are the same list, or among the strings
   * that are hashed for one of them and for the other there are two different ones with one hash.
   */
  lemma StringRootBinds(hash: string -> string, n: nat, s: seq<string>, t: seq<string>)
    requires (forall x :: |hash(x)| == n) && s != [] && |s| == |t| && AllOfLength(s, n) && AllOfLength(t, n)
    requires Root(Concatenating(hash), s) == Root(Concatenating(hash), t)
    ensures s == t || StringsCollide(hash, Inputs(Concatenating(hash), s), Inputs(Concatenating(hash), t))
  {
    hide Root, Inputs;
    var h := Concatenating(hash);
    RootBindsOrCollides(h, s, t);
    if s != t {
      var xs, ys := Inputs(h, s), Inputs(h, t);
      InputsOfLength(hash, n, s);
      InputsOfLength(hash, n, t);
      var i, j :| 0 <= i < |xs| && 0 <= j < |ys| && xs[i] != ys[j] && h(xs[i].0, xs[i].1) == h(ys[j].0, ys[j].1);
      assert xs[i] in xs && ys[j] in ys;
      if xs[i].0 + xs[i].1 == ys[j].0 + ys[j].1 {
        ConcatenationsDiffer(xs[i].0, xs[i].1, ys[j].0, ys[j].1);
      }
    }
  }

  /** Without one length it fails for every hash: moving a character between two neighbours keeps the root. */
  lemma MovedCharacterCollides(hash: string -> string)
    ensures Root(Concatenating(hash), ["a", "bc"]) == Root(Concatenating(hash), ["ab", "c"])
  {
    var h := Concatenating(hash);
    assert "a" + "bc" == "ab" + "c";
    assert Level(h, Padded(["a", "bc"]))[0] == h("a", "bc");
    assert Level(h, Padded(["ab", "c"]))[0] == h("ab", "c");
  }

  // ------------------------------------------------------------- unequal lengths

  /** Repeating the last transaction of an odd list leaves the root unchanged. */
  lemma RepeatedLastCollides<T>(h: PairHash<T>, s: seq<T>)
    requires |s| % 2 == 1
    ensures Root(h, s + [s[|s| - 1]]) == Root(h, s)
  {
    assert Padded(s + [s[|s| - 1]]) == Padded(s);
  }

  /** A list longer than two has the same root as its own first level taken for transactions. */
  lemma LevelCollides<T>(h: PairHash<T>, s: seq<T>)
    requires |s| > 2
    ensures |Level(h, Padded(s))| < |s| && Root(h, Level(h, Padded(s))) == Root(h, s)
  {
  }

  function Constant<T>(x: T, n: nat): (s: seq<T>)
    ensures |s| == n && forall i :: 0 <= i < n ==> s[i] == x
  {
    seq(n, _ => x)
  }

  /** x hashed with itself, the result with itself, and so on. */
  function Tower<T>(h: PairHash<T>, x: T, k: nat): T {
    if k == 0 then x else Tower(h, h(x, x), k - 1)
  }

  lemma {:induction false} TowerOnTop<T>(h: PairHash<T>, x: T, j: nat, k: nat)
    ensures Tower(h, Tower(h, x, j), k) == Tower(h, x, j + k)
  {
    if j > 0 {
      TowerOnTop(h, h(x, x), j - 1, k);
    }
  }

  lemma LevelOfConstant<T>(h: PairHash<T>, x: T, n: nat)
    requires n >= 1
    ensures Level(h, Padded(Constant(x, n))) == Constant(h(x, x), (n + 1) / 2)
  {
  }

  /** The root of a constant list depends on its length through the depth alone. */
  lemma {:induction false} ConstantRoot<T>(h: PairHash<T>, x: T, n: nat)
    requires n >= 1
    ensures Root(h, Constant(x, n)) == Tower(h, x, Depth(n))
    decreases n
  {
    hide Level, Padded, Constant;
    LevelOfConstant(h, x, n);
    if n > 2 {
      ConstantRoot(h, h(x, x), (n + 1) / 2);
    } else {
      assert Tower(h, h(x, x), 0) == h(x, x);
    }
  }

  /** Any two lengths have lists with one root. */
  lemma LengthsCollide<T>(h: PairHash<T>, x: T, n: nat, m: nat) returns (s: seq<T>, t: seq<T>)
    requires n >= 1 && m >= 1
    ensures |s| == n && |t| == m && Root(h, s) == Root(h, t)
    decreases Depth(n)
  {
    hide Depth, Constant, Tower, Root;
    if Depth(n) <= Depth(m) {
      var y := Tower(h, x, Depth(m) - Depth(n));
      s, t := Constant(y, n), Constant(x, m);
      ConstantRoot(h, y, n);
      ConstantRoot(h, x, m);
      TowerOnTop(h, x, Depth(m) - Depth(n), Depth(n));
    } else {
      t, s := LengthsCollide(h, x, m, n);
    }
  }

  /** The root binds lists of two given lengths, under an injective pair hash, exactly when the lengths are equal. */
  lemma RootBindsIffEqualLengths<T(!new)>(h: PairHash<T>, x: T, n: nat, m: nat)
    requires Injective(h) && n >= 1 && m >= 1
    ensures (forall s, t :: |s| == n && |t| == m && Root(h, s) == Root(h, t) ==> s == t) <==> n == m
  {
    if n == m {
      forall s, t | |s| == n && |t| == m && Root(h, s) == Root(h, t) ensures s == t {
        RootBinds(h, s, t);
      }
    } else {
      var s, t := LengthsCollide(h, x, n, m);
      assert |s| != |t|;
    }
  }
}
