/**
 The operation filter of `on`: which kinds of change the user asked for, the
 list of operations built from the five kind flags, and the test an event's
 operation must pass.
 */
module Filter {

  /** fsnotify's `Op`: a 32-bit mask with one bit per kind of change. An event
      may carry several bits at once (a write that also changed the mode). */
  type Op = bv32

  const Create: Op := 1
  const Write: Op := 2
  const Remove: Op := 4
  const Rename: Op := 8
  const Chmod: Op := 16

  /** The kinds in the order the flags are consulted when the list is built. */
  const Kinds: seq<Op> := [Create, Write, Rename, Remove, Chmod]

  /** The values of `--create`, `--write`, `--rename`, `--remove`, `--chmod`. */
  datatype Flags = Flags(create: bool, write: bool, rename: bool, remove: bool, chmod: bool)

  /** The flag that selects `Kinds[k]`. */
  function Flag(f: Flags, k: nat): bool
    requires k < |Kinds|
  {
    match k
    case 0 => f.create
    case 1 => f.write
    case 2 => f.rename
    case 3 => f.remove
    case _ => f.chmod
  }

  predicate NoFlags(f: Flags) {
    !f.create && !f.write && !f.rename && !f.remove && !f.chmod
  }

  /** Position of a kind in `Kinds`; 5 for any other mask. */
  function Rank(op: Op): nat {
    if op == Create then 0
    else if op == Write then 1
    else if op == Rename then 2
    else if op == Remove then 3
    else if op == Chmod then 4
    else 5
  }

  /** Strictly increasing in the order of `Kinds`, hence free of duplicates. */
  predicate InKindOrder(ops: seq<Op>) {
    forall a, b :: 0 <= a < b < |ops| ==> Rank(ops[a]) < Rank(ops[b])
  }

  /** Reference definition of the operations list: the kinds from position
      `k` on whose flag is set, in the order of `Kinds`. */
  function SelectedFrom(f: Flags, k: nat): seq<Op>
    requires k <= |Kinds|
    decreases |Kinds| - k
  {
    if k == |Kinds| then []
    else (if Flag(f, k) then [Kinds[k]] else []) + SelectedFrom(f, k + 1)
  }

  function Selected(f: Flags): seq<Op> {
    SelectedFrom(f, 0)
  }

  /** Linear membership test with exact equality and an early return. An
      empty array holds nothing. */
  method ArrayHas<K(==)>(arr: seq<K>, s: K) returns (found: bool)
    ensures found <==> exists i :: 0 <= i < |arr| && arr[i] == s
    ensures |arr| == 0 ==> !found
  {
    for i := 0 to |arr|
      invariant forall j :: 0 <= j < i ==> arr[j] != s
    {
      if arr[i] == s {
        return true;
      }
    }
    return false;
  }

  /** Builds the operations list by appending, flag by flag. */
  method BuildOps(f: Flags) returns (ops: seq<Op>)
    ensures ops == Selected(f)
  {
    ops := [];
    if f.create {
      ops := ops + [Create];
    }
    if f.write {
      ops := ops + [Write];
    }
    if f.rename {
      ops := ops + [Rename];
    }
    if f.remove {
      ops := ops + [Remove];
    }
    if f.chmod {
      ops := ops + [Chmod];
    }
  }

  /** The test an event's operation must pass: listen-to-all mode, or the
      operation equals one listed operation exactly. */
  function Passes(listenToAll: bool, ops: seq<Op>, op: Op): (r: bool)
    ensures listenToAll ==> r
    ensures !listenToAll ==> (r <==> exists i :: 0 <= i < |ops| && ops[i] == op)
  {
    listenToAll || op in ops
  }

  lemma {:induction false} SelectedFromSound(f: Flags, k: nat)
    requires k <= |Kinds|
    ensures forall x :: x in SelectedFrom(f, k) ==> k <= Rank(x) < |Kinds| && Flag(f, Rank(x))
    decreases |Kinds| - k
  {
    if k < |Kinds| {
      SelectedFromSound(f, k + 1);
      RankOfKind(k);
    }
  }

  lemma {:induction false} SelectedFromComplete(f: Flags, k: nat)
    requires k <= |Kinds|
    ensures forall j :: k <= j < |Kinds| && Flag(f, j) ==> Kinds[j] in SelectedFrom(f, k)
    decreases |Kinds| - k
  {
    if k < |Kinds| {
      SelectedFromComplete(f, k + 1);
    }
  }

  lemma RankOfKind(k: nat)
    requires k < |Kinds|
    ensures Rank(Kinds[k]) == k
  {
  }

  /** Rank names a kind's position, and only kinds have a position. */
  lemma RankInverse(op: Op)
    ensures Rank(op) < |Kinds| <==> op in Kinds
    ensures Rank(op) < |Kinds| ==> Kinds[Rank(op)] == op
  {
  }

  /** Putting a kind of lower rank in front keeps a list in kind order. */
  lemma {:induction false} InKindOrderCons(x: Op, rest: seq<Op>)
    requires InKindOrder(rest)
    requires forall y :: y in rest ==> Rank(x) < Rank(y)
    ensures InKindOrder([x] + rest)
  {
    var s := [x] + rest;
    forall a, b | 0 <= a < b < |s|
      ensures Rank(s[a]) < Rank(s[b])
    {
      assert s[b] == rest[b - 1];
      if a > 0 {
        assert s[a] == rest[a - 1];
      }
    }
  }

  /** One step of the ordering proof: a selected kind goes in front of the
      later ones, all of which rank after it. */
  lemma SelectedFromOrderedStep(f: Flags, k: nat)
    requires k < |Kinds| && Flag(f, k)
    requires InKindOrder(SelectedFrom(f, k + 1))
    ensures InKindOrder(SelectedFrom(f, k))
  {
    var rest := SelectedFrom(f, k + 1);
    assert SelectedFrom(f, k) == [Kinds[k]] + rest;
    SelectedFromSound(f, k + 1);
    RankOfKind(k);
    InKindOrderCons(Kinds[k], rest);
  }

  lemma {:induction false} SelectedFromOrdered(f: Flags, k: nat)
    requires k <= |Kinds|
    ensures InKindOrder(SelectedFrom(f, k))
    decreases |Kinds| - k
  {
    if k < |Kinds| {
      SelectedFromOrdered(f, k + 1);
      if Flag(f, k) {
        SelectedFromOrderedStep(f, k);
      } else {
        assert SelectedFrom(f, k) == SelectedFrom(f, k + 1);
      }
    }
  }

  lemma {:induction false} SelectedFromLength(f: Flags, k: nat)
    requires k <= |Kinds|
    ensures |SelectedFrom(f, k)| <= |Kinds| - k
    ensures |SelectedFrom(f, k)| == 0 <==> forall j :: k <= j < |Kinds| ==> !Flag(f, j)
    decreases |Kinds| - k
  {
    if k < |Kinds| {
      SelectedFromLength(f, k + 1);
    }
  }

  /** The list holds exactly the kinds whose flag is set, nothing else, in
      the order Create, Write, Rename, Remove, Chmod, without duplicates,
      and at most five of them. */
  lemma SelectedExactly(f: Flags)
    ensures forall k :: 0 <= k < |Kinds| ==> (Kinds[k] in Selected(f) <==> Flag(f, k))
    ensures forall x :: x in Selected(f) ==> x in Kinds
    ensures InKindOrder(Selected(f))
    ensures forall a, b :: 0 <= a < b < |Selected(f)| ==> Selected(f)[a] != Selected(f)[b]
    ensures |Selected(f)| <= 5
  {
    SelectedFromSound(f, 0);
    SelectedFromComplete(f, 0);
    SelectedFromOrdered(f, 0);
    SelectedFromLength(f, 0);
    forall k | 0 <= k < |Kinds| && Kinds[k] in Selected(f)
      ensures Flag(f, k)
    {
      RankOfKind(k);
    }
    forall x | x in Selected(f)
      ensures x in Kinds
    {
      RankInverse(x);
    }
  }

  /** Listen-to-all mode (an empty list) is on exactly when no flag is set. */
  lemma ListenToAllIffNoFlags(f: Flags)
    ensures |Selected(f)| == 0 <==> NoFlags(f)
  {
    SelectedFromLength(f, 0);
    if |Selected(f)| == 0 {
      assert !Flag(f, 0) && !Flag(f, 1) && !Flag(f, 2) && !Flag(f, 3) && !Flag(f, 4);
    }
  }

  /** With the list built from the flags, an operation passes exactly when no
      flag is set or it equals a kind whose flag is set. */
  lemma PassesIff(f: Flags, op: Op)
    ensures Passes(|Selected(f)| == 0, Selected(f), op)
        <==> NoFlags(f) || exists k :: 0 <= k < |Kinds| && Flag(f, k) && Kinds[k] == op
  {
    ListenToAllIffNoFlags(f);
    SelectedExactly(f);
    if op in Selected(f) {
      RankInverse(op);
    }
  }

  /** An operation with more than one bit set (Write|Chmod, say) equals none
      of the five kinds, so it is dropped unless no flag is set. */
  lemma CombinedOpDropped(f: Flags, op: Op)
    requires !NoFlags(f)
    requires op & (op - 1) != 0
    ensures !Passes(|Selected(f)| == 0, Selected(f), op)
  {
    ListenToAllIffNoFlags(f);
    SelectedExactly(f);
    assert op !in Kinds;
  }

  /** Write|Chmod is dropped even when both `--write` and `--chmod` are set. */
  lemma WriteChmodDropped()
    ensures !Passes(false, Selected(Flags(false, true, false, false, true)), Write | Chmod)
  {
    var f := Flags(false, true, false, false, true);
    CombinedOpDropped(f, Write | Chmod);
    ListenToAllIffNoFlags(f);
  }
}
