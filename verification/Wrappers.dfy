/** Values that may be absent, and stock facts the other modules share. */
module Wrappers {
  datatype Option<+T> = None | Some(value: T)

  function Min(a: int, b: int): int {
    if a <= b then a else b
  }

  /** Different positions below `n`, in order. */
  ghost predicate Ascending(at: seq<nat>, n: nat) {
    (forall j :: 0 <= j < |at| ==> at[j] < n) && (forall i, j :: 0 <= i < j < |at| ==> at[i] < at[j])
  }

  /** These are exactly the positions that are flagged. */
  ghost predicate Marks(at: seq<nat>, flags: seq<bool>) {
    Ascending(at, |flags|) && forall k :: 0 <= k < |flags| ==> (flags[k] <==> k in at)
  }

  lemma MarksOneMore(at: seq<nat>, flags: seq<bool>, flag: bool)
    requires Marks(at, flags)
    ensures Marks(if flag then at + [|flags|] else at, flags + [flag])
  {
    var n := |flags|;
    var at', flags' := if flag then at + [n] else at, flags + [flag];
    assert n !in at;
    forall k | 0 <= k < |flags'| ensures flags'[k] <==> k in at' {
      assert k in at + [n] <==> k in at || k == n;
    }
  }

  /** The elements at these positions. */
  ghost predicate Picks<T>(at: seq<nat>, s: seq<T>, r: seq<T>) {
    |at| == |r| && forall j :: 0 <= j < |at| ==> at[j] < |s| && r[j] == s[at[j]]
  }

  lemma PicksOneMore<T>(at: seq<nat>, s: seq<T>, r: seq<T>, x: T)
    requires Picks(at, s, r)
    ensures Picks(at, s + [x], r) && Picks(at + [|s|], s + [x], r + [x])
  {
  }

  /** The flagged elements, in order, each once. */
  ghost predicate Filters<T>(at: seq<nat>, flags: seq<bool>, s: seq<T>, r: seq<T>) {
    |flags| == |s| && Marks(at, flags) && Picks(at, s, r)
  }

  lemma FiltersOneMore<T>(at: seq<nat>, flags: seq<bool>, s: seq<T>, r: seq<T>, flag: bool, x: T)
    requires Filters(at, flags, s, r)
    ensures flag ==> Filters(at + [|s|], flags + [flag], s + [x], r + [x])
    ensures !flag ==> Filters(at, flags + [flag], s + [x], r)
  {
    MarksOneMore(at, flags, flag);
  }

  lemma Reassociate<T>(a: seq<T>, b: seq<T>, c: seq<T>)
    ensures (a + b) + c == a + (b + c)
  {
  }
}
