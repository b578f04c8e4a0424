/** The checkpoint index of src/storage/checkpoint_manager.js, with the checkpoint files abstracted. */
module Checkpoints {
  import opened Wrappers
  import opened Facts

  datatype Height = Height(n: int)

  datatype Checkpoint = Checkpoint(height: Height, hash: string)

  datatype Index = Index(checkpoints: map<Height, Checkpoint>, last: int)

  // ------------------------------------------------- the greatest of a set

  lemma NonEmpty<T>(s: set<T>)
    requires s != {}
    ensures exists x :: x in s
  {
  }

  lemma OneMissing<T>(p: set<T>, q: set<T>) returns (x: T)
    requires !(p <= q)
    ensures x in p && x !in q
  {
    x :| x in p && x !in q;
  }

  lemma KeysWithin<K, V>(m: map<K, V>, n: map<K, V>)
    requires forall k :: k in m ==> k in n
    ensures m.Keys <= n.Keys
  {
  }

  ghost function Greatest(s: set<Height>): (m: Height)
    requires s != {}
    ensures m in s && forall x :: x in s ==> x.n <= m.n
  {
    NonEmpty(s);
    var x :| x in s;
    if s == {x} then x
    else
      var m := Greatest(s - {x});
      assert forall y :: y in s ==> y == x || y in s - {x};
      if x.n < m.n then m else x
  }

  /** kept is the k greatest elements of s, or all of s if there are fewer. */
  ghost predicate IsTop(s: set<Height>, k: nat, kept: set<Height>) {
    && kept <= s
    && |kept| == (if |s| < k then |s| else k)
    && forall x, y :: x in kept && y in s - kept ==> y.n < x.n
  }

  ghost function Top(s: set<Height>, k: nat): set<Height> {
    if k == 0 || s == {} then {} else {Greatest(s)} + Top(s - {Greatest(s)}, k - 1)
  }

  lemma TopStep(s: set<Height>, k: nat, m: Height, top: set<Height>)
    requires k >= 1 && m in s && (forall x :: x in s ==> x.n <= m.n) && IsTop(s - {m}, k - 1, top)
    ensures IsTop(s, k, {m} + top)
  {
    assert s - ({m} + top) == (s - {m}) - top;
  }

  lemma TopUnfolds(s: set<Height>, k: nat)
    ensures k > 0 && s != {} ==> Top(s, k) == {Greatest(s)} + Top(s - {Greatest(s)}, k - 1)
    ensures k == 0 || s == {} ==> Top(s, k) == {}
  {
    hide Greatest;
  }

  lemma NothingIsTop(s: set<Height>, k: nat)
    requires k == 0 || s == {}
    ensures IsTop(s, k, {})
  {
  }

  lemma {:induction false} TopIsTop(s: set<Height>, k: nat)
    ensures IsTop(s, k, Top(s, k))
  {
    hide Greatest, IsTop, Top;
    TopUnfolds(s, k);
    if k > 0 && s != {} {
      var m := Greatest(s);
      TopIsTop(s - {m}, k - 1);
      TopStep(s, k, m, Top(s - {m}, k - 1));
    } else {
      NothingIsTop(s, k);
    }
  }

  /** Only one set is the k greatest. */
  lemma TopIsUnique(s: set<Height>, k: nat, p: set<Height>, q: set<Height>)
    requires IsTop(s, k, p) && IsTop(s, k, q)
    ensures p == q
  {
    if p <= q {
      SubsetOfSameSize(p, q);
    } else {
      var x := OneMissing(p, q);
      forall y | y in q ensures y in p {
        assert y !in p ==> x in s - q && y in s - p;
      }
      SubsetOfSameSize(q, p);
    }
  }

  lemma BelowNothingInTop(s: set<Height>, k: nat, top: set<Height>, m: Height, x: Height)
    requires IsTop(s, k, top) && m in s && x in top && x.n <= m.n
    ensures m in top
  {
    assert m in s - top ==> m.n < x.n;
  }

  lemma GreatestIsTop(s: set<Height>, k: nat, top: set<Height>, m: Height)
    requires IsTop(s, k, top) && k >= 1 && m in s && forall x :: x in s ==> x.n <= m.n
    ensures m in top
  {
    NonEmpty(top);
    var x :| x in top;
    BelowNothingInTop(s, k, top, m, x);
  }

  // --------------------------------------------------------- value operations

  function Put(i: Index, c: Checkpoint): Index {
    Index(i.checkpoints[c.height := c], if c.height.n > i.last then c.height.n else i.last)
  }

  function PutAll(i: Index, cs: seq<Checkpoint>): Index {
    if cs == [] then i else Put(PutAll(i, cs[..|cs| - 1]), cs[|cs| - 1])
  }

  ghost function Restrict(m: map<Height, Checkpoint>, keys: set<Height>): map<Height, Checkpoint> {
    map h | h in m && h in keys :: m[h]
  }

  ghost function Prune(i: Index, maxCheckpoints: nat): Index {
    i.(checkpoints := Restrict(i.checkpoints, Top(i.checkpoints.Keys, maxCheckpoints)))
  }

  /** The greatest stored height that is positive and at most h. */
  ghost predicate IsNearest(m: map<Height, Checkpoint>, h: int, c: Option<Checkpoint>) {
    match c
    case None => forall x :: x in m ==> x.n <= 0 || x.n > h
    case Some(cp) =>
      exists k :: k in m && m[k] == cp && 0 < k.n <= h && forall x :: x in m && x.n <= h ==> x.n <= k.n
  }

  /** What getLatestCheckpoint answers: the checkpoint at the greatest stored height, if that is positive. */
  function Latest(i: Index): Option<Checkpoint> {
    if i.last == 0 || Height(i.last) !in i.checkpoints then None else Some(i.checkpoints[Height(i.last)])
  }

  /** The last checkpoint of a list at a height. */
  function LastAt(list: seq<Checkpoint>, h: Height): Option<Checkpoint> {
    if list == [] then None
    else if list[|list| - 1].height == h then Some(list[|list| - 1])
    else LastAt(list[..|list| - 1], h)
  }

  lemma {:induction false} PutAllOutcome(i: Index, cs: seq<Checkpoint>)
    ensures var r := PutAll(i, cs).checkpoints;
            && (forall h :: h in r <==> h in i.checkpoints || LastAt(cs, h).Some?)
            && (forall h :: h in r ==> r[h] == if LastAt(cs, h).Some? then LastAt(cs, h).value else i.checkpoints[h])
  {
    if cs != [] {
      PutAllOutcome(i, cs[..|cs| - 1]);
    }
  }

  /** No stored checkpoint is higher. */
  ghost predicate IsNewest(c: Checkpoint, i: Index) {
    i.last <= c.height.n && forall h :: h in i.checkpoints ==> h.n <= c.height.n
  }

  lemma NewestIsLatest(i: Index, c: Checkpoint, k: nat)
    requires k >= 1 && c.height.n > 0 && IsNewest(c, i)
    ensures Latest(Prune(Put(i, c), k)) == Some(c)
    ensures IsNearest(Prune(Put(i, c), k).checkpoints, c.height.n, Some(c))
  {
    hide Top;
    var all := Put(i, c);
    TopIsTop(all.checkpoints.Keys, k);
    GreatestIsTop(all.checkpoints.Keys, k, Top(all.checkpoints.Keys, k), c.height);
  }

  class CheckpointManager {
    const maxCheckpoints: nat
    var checkpoints: map<Height, Checkpoint>
    var lastCheckpointHeight: int

    constructor (maxCheckpoints: nat)
      ensures this.maxCheckpoints == maxCheckpoints && View() == Index(map[], 0)
    {
      this.maxCheckpoints := maxCheckpoints;
      checkpoints, lastCheckpointHeight := map[], 0;
    }

    ghost function View(): Index
      reads this
    {
      Index(checkpoints, lastCheckpointHeight)
    }

    method Store(c: Checkpoint)
      modifies this
      ensures View() == Put(old(View()), c)
      ensures checkpoints == old(checkpoints)[c.height := c]
      ensures lastCheckpointHeight
           == if old(lastCheckpointHeight) < c.height.n then c.height.n else old(lastCheckpointHeight)
    {
      checkpoints := checkpoints[c.height := c];
      if c.height.n > lastCheckpointHeight {
        lastCheckpointHeight := c.height.n;
      }
    }

    /** The library sort, in descending order. */
    static method SortDescending(s: set<Height>) returns (r: seq<Height>)
      ensures |r| == |s| && forall x :: x in s <==> x in r
      ensures forall i, j :: 0 <= i < j < |r| ==> r[i].n > r[j].n
    {
      r := [];
      var rest := s;
      while rest != {}
        invariant rest <= s && |r| + |rest| == |s|
        invariant forall x :: x in r <==> x in s - rest
        invariant forall i, j :: 0 <= i < j < |r| ==> r[i].n > r[j].n
        invariant forall i, y :: 0 <= i < |r| && y in rest ==> r[i].n > y.n
        decreases |rest|
      {
        assert Greatest(rest) in rest;
        var m :| m in rest && forall x :: x in rest ==> x.n <= m.n;
        r, rest := r + [m], rest - {m};
      }
    }

    method DeleteAll(toDelete: seq<Height>) returns (ghost gone: set<Height>)
      modifies this`checkpoints
      ensures checkpoints == old(checkpoints) - gone && forall h :: h in gone <==> h in toDelete
    {
      gone := {};
      for i := 0 to |toDelete|
        invariant forall h :: h in gone <==> h in toDelete[..i]
        invariant checkpoints == old(checkpoints) - gone
      {
        checkpoints := checkpoints - {toDelete[i]};
        gone := gone + {toDelete[i]};
      }
      assert toDelete[..|toDelete|] == toDelete;
    }

    method PruneOldCheckpoints()
      modifies this`checkpoints
      ensures View() == Prune(old(View()), maxCheckpoints)
    {
      hide Top, IsTop, Restrict;
      var heights := SortDescending(checkpoints.Keys);
      var toDelete := if |heights| > maxCheckpoints then heights[maxCheckpoints..] else [];
      ghost var all := checkpoints;
      ghost var gone := DeleteAll(toDelete);
      FirstAreTop(heights, all.Keys, maxCheckpoints, gone);
      RemainsTop(all, maxCheckpoints, gone);
    }

    /** createCheckpoint: nothing is stored unless the block is found and the file is written. */
    method CreateCheckpoint(found: Option<Checkpoint>, written: bool) returns (created: bool)
      modifies this
      ensures created == (found.Some? && written)
      ensures View() == if created then Prune(Put(old(View()), found.value), maxCheckpoints) else old(View())
      ensures created && maxCheckpoints >= 1 && found.value.height.n > 0 && IsNewest(found.value, old(View())) ==>
                Latest(View()) == found && IsNearest(checkpoints, found.value.height.n, found)
    {
      if found.None? || !written {
        return false;
      }
      if maxCheckpoints >= 1 && found.value.height.n > 0 && IsNewest(found.value, View()) {
        NewestIsLatest(View(), found.value, maxCheckpoints);
      }
      Store(found.value);
      PruneOldCheckpoints();
      return true;
    }

    /** saveCheckpoint and importCheckpoints store first and write the file afterwards, and do not prune. */
    method ImportCheckpoints(cs: seq<Checkpoint>)
      modifies this
      ensures View() == PutAll(old(View()), cs)
      ensures forall h :: h in checkpoints <==> h in old(checkpoints) || LastAt(cs, h).Some?
      ensures forall h :: h in checkpoints ==>
                checkpoints[h] == if LastAt(cs, h).Some? then LastAt(cs, h).value else old(checkpoints)[h]
    {
      PutAllOutcome(View(), cs);
      for i := 0 to |cs|
        invariant View() == PutAll(old(View()), cs[..i])
      {
        assert cs[..i + 1][..i] == cs[..i];
        Store(cs[i]);
      }
      assert cs[..|cs|] == cs;
    }

    method GetLatestCheckpoint() returns (c: Option<Checkpoint>)
      ensures c == Latest(View())
    {
      if lastCheckpointHeight == 0 {
        return None;
      }
      if Height(lastCheckpointHeight) !in checkpoints {
        return None;
      }
      return Some(checkpoints[Height(lastCheckpointHeight)]);
    }

    method GetNearestCheckpoint(height: int) returns (c: Option<Checkpoint>)
      ensures IsNearest(checkpoints, height, c)
    {
      var nearestHeight := 0;
      var rest := checkpoints.Keys;
      while rest != {}
        invariant rest <= checkpoints.Keys
        invariant nearestHeight == 0 || (Height(nearestHeight) in checkpoints && 0 < nearestHeight <= height)
        invariant forall x :: x in checkpoints && x !in rest ==> x.n > height || x.n <= nearestHeight
        decreases |rest|
      {
        NonEmpty(rest);
        var checkpointHeight :| checkpointHeight in rest;
        if checkpointHeight.n <= height && checkpointHeight.n > nearestHeight {
          nearestHeight := checkpointHeight.n;
        }
        rest := rest - {checkpointHeight};
      }
      return if nearestHeight > 0 then Some(checkpoints[Height(nearestHeight)]) else None;
    }
  }

  /** What is left of a set without all but the first k of its elements, listed in descending order, is its k greatest. */
  lemma FirstAreTop(r: seq<Height>, s: set<Height>, k: nat, gone: set<Height>)
    requires |r| == |s| && (forall x :: x in s <==> x in r)
    requires forall i, j :: 0 <= i < j < |r| ==> r[i].n > r[j].n
    requires forall x :: x in gone <==> |r| > k && x in r[k..]
    ensures IsTop(s, k, s - gone)
  {
    if |r| > k {
      SizeOfDistinct(r[k..], gone);
      assert r == r[..k] + r[k..];
      forall x, y | x in s - gone && y in s - (s - gone) ensures y.n < x.n {
        FirstAboveRest(r, k, x, y);
      }
    } else {
      assert gone == {};
      assert s - gone == s;
    }
  }

  lemma FirstAboveRest(r: seq<Height>, k: nat, x: Height, y: Height)
    requires k <= |r| && forall i, j :: 0 <= i < j < |r| ==> r[i].n > r[j].n
    requires x in r[..k] && y in r[k..]
    ensures y.n < x.n
  {
    var i :| 0 <= i < k && r[..k][i] == x;
    var j :| 0 <= j < |r[k..]| && r[k..][j] == y;
    assert r[i] == x && r[k + j] == y;
  }

  lemma {:induction false} SizeOfDistinct(r: seq<Height>, s: set<Height>)
    requires forall i, j :: 0 <= i < j < |r| ==> r[i].n > r[j].n
    requires forall x :: x in s <==> x in r
    ensures |s| == |r|
  {
    if r == [] {
      assert s == {};
    } else {
      var init, x := r[..|r| - 1], r[|r| - 1];
      assert r == init + [x];
      SizeOfDistinct(init, s - {x});
    }
  }

  lemma RemainsTop(m: map<Height, Checkpoint>, k: nat, gone: set<Height>)
    requires IsTop(m.Keys, k, m.Keys - gone)
    ensures m - gone == Restrict(m, Top(m.Keys, k))
  {
    hide Top, IsTop, Restrict;
    TopIsTop(m.Keys, k);
    TopIsUnique(m.Keys, k, m.Keys - gone, Top(m.Keys, k));
    MinusIsRestriction(m, gone);
  }

  lemma MinusIsRestriction(m: map<Height, Checkpoint>, gone: set<Height>)
    ensures m - gone == Restrict(m, m.Keys - gone)
  {
    var p, q := m - gone, Restrict(m, m.Keys - gone);
    assert forall h :: h in p <==> h in m && h !in gone;
    assert forall h :: h in q <==> h in m && h !in gone;
  }

  // -------------------------------------------------------------- whole runs

  datatype Op = Create(c: Checkpoint) | Save(c: Checkpoint) | Import(cs: seq<Checkpoint>) | PruneNow

  ghost function Step(k: nat, i: Index, op: Op): Index {
    match op
    case Create(c) => Prune(Put(i, c), k)
    case Save(c) => Put(i, c)
    case Import(cs) => PutAll(i, cs)
    case PruneNow => Prune(i, k)
  }

  ghost function Run(k: nat, ops: seq<Op>): Index {
    if ops == [] then Index(map[], 0) else Step(k, Run(k, ops[..|ops| - 1]), ops[|ops| - 1])
  }

  /** The same run with pruning switched off: everything ever stored, the latest at each height. */
  function Ever(ops: seq<Op>): Index {
    if ops == [] then Index(map[], 0)
    else
      var i := Ever(ops[..|ops| - 1]);
      match ops[|ops| - 1]
      case Create(c) => Put(i, c)
      case Save(c) => Put(i, c)
      case Import(cs) => PutAll(i, cs)
      case PruneNow => i
  }

  /** What a pruned index shares with the one that never pruned: its entries, its k greatest heights and last. */
  ghost predicate Tracks(k: nat, i: Index, ever: Index) {
    && (forall h :: h in i.checkpoints ==> h in ever.checkpoints && i.checkpoints[h] == ever.checkpoints[h])
    && Top(i.checkpoints.Keys, k) == Top(ever.checkpoints.Keys, k)
    && i.last == ever.last
  }

  /** Adding a height to a set and to its pruned copy leads to the same k greatest. */
  lemma TopAbsorbs(s: set<Height>, t: set<Height>, k: nat, x: Height)
    requires t <= s && Top(t, k) == Top(s, k)
    ensures Top(t + {x}, k) == Top(s + {x}, k)
  {
    hide Top;
    TopIsTop(s, k);
    TopIsTop(t, k);
    TopIsTop(s + {x}, k);
    var kept := Top(s + {x}, k);
    TopStays(s, t, k, x, Top(s, k), kept);
    TopIsTop(t + {x}, k);
    TopIsUnique(t + {x}, k, Top(t + {x}, k), kept);
  }

  lemma NewTopIsWithin(s: set<Height>, k: nat, x: Height, top: set<Height>, kept: set<Height>, y: Height)
    requires IsTop(s, k, top) && IsTop(s + {x}, k, kept) && y in kept
    ensures y in top + {x}
  {
    if y !in top + {x} {
      assert y in s - top;
      forall z | z in top ensures z in kept {
        assert z !in kept ==> z in (s + {x}) - kept;
      }
      SubsetCount(top + {y}, kept);
      SubsetCount(top + {y}, s);
    }
  }

  lemma TopStays(s: set<Height>, t: set<Height>, k: nat, x: Height, top: set<Height>, kept: set<Height>)
    requires t <= s && IsTop(t, k, top) && IsTop(s, k, top) && IsTop(s + {x}, k, kept)
    ensures IsTop(t + {x}, k, kept)
  {
    forall y | y in kept ensures y in top + {x} {
      NewTopIsWithin(s, k, x, top, kept, y);
    }
    SubsetCount(t, t + {x});
    SubsetCount(s, s + {x});
    if |s| < k {
      SubsetOfSameSize(t, s);
    }
  }

  lemma TopOfTop(s: set<Height>, k: nat)
    ensures Top(Top(s, k), k) == Top(s, k)
  {
    hide Top;
    var p := Top(s, k);
    TopIsTop(s, k);
    TopIsTop(p, k);
    SubsetOfSameSize(Top(p, k), p);
  }

  lemma PutTracks(k: nat, i: Index, ever: Index, c: Checkpoint)
    requires Tracks(k, i, ever)
    ensures Tracks(k, Put(i, c), Put(ever, c))
  {
    hide Top;
    KeysWithin(i.checkpoints, ever.checkpoints);
    TopAbsorbs(ever.checkpoints.Keys, i.checkpoints.Keys, k, c.height);
    assert Put(i, c).checkpoints.Keys == i.checkpoints.Keys + {c.height};
    assert Put(ever, c).checkpoints.Keys == ever.checkpoints.Keys + {c.height};
  }

  lemma {:induction false} PutAllTracks(k: nat, i: Index, ever: Index, cs: seq<Checkpoint>)
    requires Tracks(k, i, ever)
    ensures Tracks(k, PutAll(i, cs), PutAll(ever, cs))
  {
    if cs != [] {
      hide Tracks, Put;
      PutAllTracks(k, i, ever, cs[..|cs| - 1]);
      PutTracks(k, PutAll(i, cs[..|cs| - 1]), PutAll(ever, cs[..|cs| - 1]), cs[|cs| - 1]);
    }
  }

  lemma PrunedKeys(i: Index, k: nat)
    ensures Prune(i, k).checkpoints.Keys == Top(i.checkpoints.Keys, k)
  {
    hide Top;
    TopIsTop(i.checkpoints.Keys, k);
  }

  lemma PruneTracks(k: nat, i: Index, ever: Index)
    requires Tracks(k, i, ever)
    ensures Tracks(k, Prune(i, k), ever)
  {
    hide Top;
    PrunedKeys(i, k);
    TopOfTop(i.checkpoints.Keys, k);
  }

  lemma {:induction false} RunTracks(k: nat, ops: seq<Op>)
    ensures Tracks(k, Run(k, ops), Ever(ops))
  {
    if ops != [] {
      hide Tracks, Put, Prune;
      var before, op := ops[..|ops| - 1], ops[|ops| - 1];
      RunTracks(k, before);
      match op
      case Create(c) =>
        PutTracks(k, Run(k, before), Ever(before), c);
        PruneTracks(k, Put(Run(k, before), c), Put(Ever(before), c));
      case Save(c) =>
        PutTracks(k, Run(k, before), Ever(before), c);
      case Import(cs) =>
        PutAllTracks(k, Run(k, before), Ever(before), cs);
      case PruneNow =>
        PruneTracks(k, Run(k, before), Ever(before));
    }
  }

  /**
   * Whenever an index has just been pruned, however it got there, it holds exactly what an index that never
   * pruned would hold at its k greatest heights.
   */
  lemma PrunedIsTopOfEver(k: nat, ops: seq<Op>)
    requires ops != [] && (ops[|ops| - 1].Create? || ops[|ops| - 1].PruneNow?)
    ensures Run(k, ops).checkpoints == Restrict(Ever(ops).checkpoints, Top(Ever(ops).checkpoints.Keys, k))
  {
    hide Top, Ever;
    RunTracks(k, ops);
    var before, op := ops[..|ops| - 1], ops[|ops| - 1];
    var i := if op.Create? then Put(Run(k, before), op.c) else Run(k, before);
    assert Run(k, ops) == Prune(i, k);
    PrunedKeys(i, k);
    TopOfTop(i.checkpoints.Keys, k);
    IsRestriction(Run(k, ops).checkpoints, Ever(ops).checkpoints);
  }

  lemma IsRestriction(m: map<Height, Checkpoint>, n: map<Height, Checkpoint>)
    requires forall h :: h in m ==> h in n && m[h] == n[h]
    ensures m == Restrict(n, m.Keys)
  {
  }

  // --------------------------------------------- the last checkpoint height

  /** last is the greatest stored height, or 0 if nothing positive is stored. */
  ghost predicate LastIsGreatest(i: Index) {
    && (forall h :: h in i.checkpoints ==> h.n <= i.last)
    && (i.last == 0 || (i.last > 0 && Height(i.last) in i.checkpoints))
    && (forall h :: h in i.checkpoints ==> i.checkpoints[h].height == h)
  }

  lemma PutKeepsLast(i: Index, c: Checkpoint)
    requires LastIsGreatest(i)
    ensures LastIsGreatest(Put(i, c))
  {
  }

  lemma {:induction false} PutAllKeepsLast(i: Index, cs: seq<Checkpoint>)
    requires LastIsGreatest(i)
    ensures LastIsGreatest(PutAll(i, cs))
  {
    if cs != [] {
      hide LastIsGreatest;
      PutAllKeepsLast(i, cs[..|cs| - 1]);
      PutKeepsLast(PutAll(i, cs[..|cs| - 1]), cs[|cs| - 1]);
    }
  }

  lemma PruneKeepsLast(i: Index, k: nat)
    requires LastIsGreatest(i) && k >= 1
    ensures LastIsGreatest(Prune(i, k))
  {
    hide Top;
    var keys := i.checkpoints.Keys;
    TopIsTop(keys, k);
    PrunedKeys(i, k);
    if Height(i.last) in keys {
      GreatestIsTop(keys, k, Top(keys, k), Height(i.last));
    }
  }

  /** Over any run, with at least one checkpoint kept, last is the greatest stored height. */
  lemma {:induction false} RunKeepsLast(k: nat, ops: seq<Op>)
    requires k >= 1
    ensures LastIsGreatest(Run(k, ops))
  {
    if ops != [] {
      hide LastIsGreatest, Put, Prune;
      var before, op := ops[..|ops| - 1], ops[|ops| - 1];
      RunKeepsLast(k, before);
      match op
      case Create(c) =>
        PutKeepsLast(Run(k, before), c);
        PruneKeepsLast(Put(Run(k, before), c), k);
      case Save(c) =>
        PutKeepsLast(Run(k, before), c);
      case Import(cs) =>
        PutAllKeepsLast(Run(k, before), cs);
      case PruneNow =>
        PruneKeepsLast(Run(k, before), k);
    } else {
      assert LastIsGreatest(Index(map[], 0));
    }
  }

  /** The latest checkpoint is never pruned: after any run it is what it would be if nothing ever were. */
  lemma LatestIsLatestEver(k: nat, ops: seq<Op>)
    requires k >= 1
    ensures Latest(Run(k, ops)) == Latest(Ever(ops))
    ensures IsNearest(Run(k, ops).checkpoints, Run(k, ops).last, Latest(Run(k, ops)))
  {
    hide Run, Ever, Top;
    RunKeepsLast(k, ops);
    RunTracks(k, ops);
    EverHasLast(ops);
  }

  lemma {:induction false} EverHasLast(ops: seq<Op>)
    ensures LastIsGreatest(Ever(ops))
  {
    if ops != [] {
      hide LastIsGreatest, Put;
      var before, op := ops[..|ops| - 1], ops[|ops| - 1];
      EverHasLast(before);
      match op
      case Create(c) => PutKeepsLast(Ever(before), c);
      case Save(c) => PutKeepsLast(Ever(before), c);
      case Import(cs) => PutAllKeepsLast(Ever(before), cs);
      case PruneNow =>
    } else {
      assert LastIsGreatest(Index(map[], 0));
    }
  }

  // ----------------------------------------------------- nearest checkpoints

  /** A map with keyed entries has one nearest checkpoint at each height. */
  lemma NearestIsUnique(m: map<Height, Checkpoint>, h: int, a: Option<Checkpoint>, b: Option<Checkpoint>)
    requires IsNearest(m, h, a) && IsNearest(m, h, b)
    ensures a == b
  {
  }

  /**
   * Pruning leaves the nearest checkpoint at a height unchanged if and only if some kept height is at most
   * that height, or there was nothing to find there in the first place.
   */
  lemma PruningKeepsNearestIff(i: Index, k: nat, h: int, a: Option<Checkpoint>, b: Option<Checkpoint>)
    requires IsNearest(i.checkpoints, h, a) && IsNearest(Prune(i, k).checkpoints, h, b)
    ensures a == b <==> a.None? || exists x :: x in Top(i.checkpoints.Keys, k) && x.n <= h
  {
    hide Top;
    var keys := i.checkpoints.Keys;
    TopIsTop(keys, k);
    PrunedKeys(i, k);
    if a.Some? && (exists x :: x in Top(keys, k) && x.n <= h) {
      NearestSurvives(i.checkpoints, k, h, a, Top(keys, k));
      NearestIsUnique(Restrict(i.checkpoints, Top(keys, k)), h, a, b);
    }
  }

  lemma NearestSurvives(m: map<Height, Checkpoint>, k: nat, h: int, a: Option<Checkpoint>, kept: set<Height>)
    requires IsTop(m.Keys, k, kept) && IsNearest(m, h, a) && a.Some? && exists x :: x in kept && x.n <= h
    ensures IsNearest(Restrict(m, kept), h, a)
  {
    var x :| x in kept && x.n <= h;
    var n :| n in m && m[n] == a.value && 0 < n.n <= h && forall y :: y in m && y.n <= h ==> y.n <= n.n;
    assert x.n <= n.n;
    assert n in m.Keys - kept ==> n.n < x.n;
    assert n in Restrict(m, kept);
  }

  // ------------------------------------------ runs by what was handed over

  /** All checkpoints handed over in a run, in order. */
  function Handed(ops: seq<Op>): seq<Checkpoint> {
    if ops == [] then []
    else
      var before := Handed(ops[..|ops| - 1]);
      match ops[|ops| - 1]
      case Create(c) => before + [c]
      case Save(c) => before + [c]
      case Import(cs) => before + cs
      case PruneNow => before
  }

  function HeightsOf(list: seq<Checkpoint>): set<Height> {
    if list == [] then {} else HeightsOf(list[..|list| - 1]) + {list[|list| - 1].height}
  }

  /** The greatest height in a list, or 0. */
  function MaxHeight(list: seq<Checkpoint>): int {
    if list == [] then 0
    else
      var m := MaxHeight(list[..|list| - 1]);
      if list[|list| - 1].height.n > m then list[|list| - 1].height.n else m
  }

  /** An index that holds exactly what has been handed over, the last at each height. */
  ghost predicate Represents(i: Index, list: seq<Checkpoint>) {
    && i.checkpoints.Keys == HeightsOf(list)
    && (forall h :: h in i.checkpoints ==> LastAt(list, h) == Some(i.checkpoints[h]))
    && i.last == MaxHeight(list)
  }

  lemma PutRepresents(i: Index, list: seq<Checkpoint>, c: Checkpoint)
    requires Represents(i, list)
    ensures Represents(Put(i, c), list + [c])
  {
    assert (list + [c])[..|list + [c]| - 1] == list;
    assert Put(i, c).checkpoints.Keys == i.checkpoints.Keys + {c.height};
  }

  lemma {:induction false} PutAllRepresents(i: Index, list: seq<Checkpoint>, cs: seq<Checkpoint>)
    requires Represents(i, list)
    ensures Represents(PutAll(i, cs), list + cs)
  {
    if cs == [] {
      assert list + cs == list;
    } else {
      hide Represents, Put;
      PutAllRepresents(i, list, cs[..|cs| - 1]);
      PutRepresents(PutAll(i, cs[..|cs| - 1]), list + cs[..|cs| - 1], cs[|cs| - 1]);
      assert list + cs[..|cs| - 1] + [cs[|cs| - 1]] == list + cs;
    }
  }

  lemma {:induction false} EverRepresents(ops: seq<Op>)
    ensures Represents(Ever(ops), Handed(ops))
  {
    if ops != [] {
      hide Represents, Put, PutAll;
      var before, op := ops[..|ops| - 1], ops[|ops| - 1];
      EverRepresents(before);
      match op
      case Create(c) => PutRepresents(Ever(before), Handed(before), c);
      case Save(c) => PutRepresents(Ever(before), Handed(before), c);
      case Import(cs) => PutAllRepresents(Ever(before), Handed(before), cs);
      case PruneNow =>
    } else {
      assert Represents(Index(map[], 0), []);
    }
  }

  /**
   * Over any run, whatever is stored at a height is the last checkpoint handed over at it, and the last checkpoint
   * height is the greatest height handed over, or 0.
   */
  lemma StoredWasHanded(k: nat, ops: seq<Op>)
    ensures var i := Run(k, ops);
            && (forall h :: h in i.checkpoints ==> LastAt(Handed(ops), h) == Some(i.checkpoints[h]))
            && i.last == MaxHeight(Handed(ops))
  {
    hide Run, Ever, Top;
    RunTracks(k, ops);
    EverRepresents(ops);
  }

  /** Right after a creation or a pruning, what is stored stands at the k greatest heights handed over, no others. */
  lemma PrunedIsTopOfHanded(k: nat, ops: seq<Op>)
    requires ops != [] && (ops[|ops| - 1].Create? || ops[|ops| - 1].PruneNow?)
    ensures IsTop(HeightsOf(Handed(ops)), k, Run(k, ops).checkpoints.Keys)
  {
    hide Run, Ever, Top;
    PrunedIsTopOfEver(k, ops);
    EverRepresents(ops);
    TopIsTop(HeightsOf(Handed(ops)), k);
    assert Run(k, ops).checkpoints.Keys == Top(HeightsOf(Handed(ops)), k);
  }

  lemma {:induction false} SizeOfHeights(list: seq<Checkpoint>)
    ensures |HeightsOf(list)| <= |list|
  {
    if list != [] {
      SizeOfHeights(list[..|list| - 1]);
    }
  }

  lemma {:induction false} ShortRunIsEver(k: nat, ops: seq<Op>)
    requires k >= |Handed(ops)|
    ensures Run(k, ops) == Ever(ops)
  {
    if ops != [] {
      hide Represents, Top, Put, Prune;
      var before, op := ops[..|ops| - 1], ops[|ops| - 1];
      ShortRunIsEver(k, before);
      EverRepresents(ops);
      SizeOfHeights(Handed(ops));
      RoomForAll(Ever(ops), Handed(ops), k);
    }
  }

  lemma RoomForAll(i: Index, list: seq<Checkpoint>, k: nat)
    requires Represents(i, list) && |HeightsOf(list)| <= |list| <= k
    ensures Prune(i, k) == i
  {
    hide Top;
    TopIsTop(i.checkpoints.Keys, k);
    SubsetOfSameSize(Top(i.checkpoints.Keys, k), i.checkpoints.Keys);
    PrunedKeys(i, k);
    assert Prune(i, k).checkpoints == i.checkpoints;
  }

  /** While no more have been handed over than are kept, all of them are there: the last one at each height. */
  lemma NothingIsLostEarly(k: nat, ops: seq<Op>, h: Height)
    requires k >= |Handed(ops)|
    ensures h in Run(k, ops).checkpoints <==> LastAt(Handed(ops), h).Some?
    ensures h in Run(k, ops).checkpoints ==> LastAt(Handed(ops), h) == Some(Run(k, ops).checkpoints[h])
  {
    ShortRunIsEver(k, ops);
    EverRepresents(ops);
    hide Run, Ever;
    LastAtHeights(Handed(ops), h);
  }

  lemma {:induction false} LastAtHeights(list: seq<Checkpoint>, h: Height)
    ensures h in HeightsOf(list) <==> LastAt(list, h).Some?
  {
    if list != [] {
      LastAtHeights(list[..|list| - 1], h);
    }
  }

  lemma {:induction false} MaxHeightIsGreatest(list: seq<Checkpoint>)
    ensures forall j :: 0 <= j < |list| ==> list[j].height.n <= MaxHeight(list)
    ensures MaxHeight(list) == 0 || exists j :: 0 <= j < |list| && list[j].height.n == MaxHeight(list)
  {
    if list != [] {
      var init := list[..|list| - 1];
      MaxHeightIsGreatest(init);
      if MaxHeight(init) != 0 {
        var j :| 0 <= j < |init| && init[j].height.n == MaxHeight(init);
        assert list[j] == init[j];
      }
    }
  }

  lemma {:induction false} LastAtIsOnList(list: seq<Checkpoint>, h: Height)
    ensures LastAt(list, h).Some? ==>
              exists j :: 0 <= j < |list| && list[j] == LastAt(list, h).value && list[j].height == h
  {
    if list != [] {
      var init := list[..|list| - 1];
      LastAtIsOnList(init, h);
      if list[|list| - 1].height != h && LastAt(init, h).Some? {
        var j :| 0 <= j < |init| && init[j] == LastAt(init, h).value && init[j].height == h;
        assert list[j] == init[j];
      }
    }
  }

  /**
   * Right after a checkpoint has been created at a positive height no lower than any handed over before, it is the
   * latest, and the nearest at its own height.
   */
  lemma CreatedIsLatest(k: nat, ops: seq<Op>, c: Checkpoint)
    requires k >= 1 && c.height.n > 0 && forall j :: 0 <= j < |Handed(ops)| ==> Handed(ops)[j].height.n <= c.height.n
    ensures var i := Run(k, ops + [Create(c)]);
            Latest(i) == Some(c) && IsNearest(i.checkpoints, c.height.n, Some(c))
  {
    assert (ops + [Create(c)])[..|ops + [Create(c)]| - 1] == ops;
    var i, list := Run(k, ops), Handed(ops);
    StoredWasHanded(k, ops);
    MaxHeightIsGreatest(list);
    forall h | h in i.checkpoints ensures h.n <= c.height.n {
      LastAtIsOnList(list, h);
    }
    hide Top, Handed, Prune, Put;
    NewestIsLatest(i, c, k);
  }
}
