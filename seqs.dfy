/** The first-match search that the lookups over stored records share. */
module Seqs {
  import opened Wrappers

  /** The position of the first element at or after `from` that satisfies `p`. */
  function FirstWhere<T>(s: seq<T>, p: T -> bool, from: nat): (r: Option<nat>)
    requires from <= |s|
    ensures r.Some? ==> from <= r.value < |s| && p(s[r.value])
    ensures r.Some? ==> forall j :: from <= j < r.value ==> !p(s[j])
    ensures r.None? ==> forall j :: from <= j < |s| ==> !p(s[j])
    decreases |s| - from
  {
    if from == |s| then None
    else if p(s[from]) then Some(from)
    else FirstWhere(s, p, from + 1)
  }

  /** When no element in `[from, i)` satisfies `p`, the search finds `i` if that one does, and nothing at the end. */
  lemma {:induction false} FirstWhereAt<T>(s: seq<T>, p: T -> bool, from: nat, i: nat)
    requires from <= i <= |s| && forall j :: from <= j < i ==> !p(s[j])
    requires i < |s| ==> p(s[i])
    ensures FirstWhere(s, p, from) == if i < |s| then Some(i) else None
    decreases i - from
  {
    if from < i {
      FirstWhereAt(s, p, from + 1, i);
    }
  }
}
