/** Start-token trees (the FIRST set of a grammar rule), src/parser.rs lines 5-53. */
module StartSets {

  /** `All` matches every kind; `Any` is a list of alternatives; `One` wraps one tree. */
  datatype StartTokens<K> = All | Any(alternatives: seq<StartTokens<K>>) | One(inner: StartTokens<K>) | Token(kind: K)

  /** `StartTokens::contains`; the `Any` arm scans the alternatives in order. */
  function Contains<K(==)>(t: StartTokens<K>, k: K): bool
    decreases t, 1
  {
    match t
    case All => true
    case Any(cs) => ContainsAny(cs, k, 0)
    case One(c) => Contains(c, k)
    case Token(x) => x == k
  }

  /** The `for tok in kinds` loop from index `i`, returning at the first alternative that matches. */
  function ContainsAny<K(==)>(cs: seq<StartTokens<K>>, k: K, i: nat): bool
    requires i <= |cs|
    decreases Any(cs), 0, |cs| - i
  {
    if i == |cs| then false
    else if Contains(cs[i], k) then true
    else ContainsAny(cs, k, i + 1)
  }

  /** The tree holds an `All` leaf somewhere. */
  ghost predicate HasAll<K>(t: StartTokens<K>)
  {
    match t
    case All => true
    case Any(cs) => exists i :: 0 <= i < |cs| && HasAll(cs[i])
    case One(c) => HasAll(c)
    case Token(_) => false
  }

  /** The kinds of the tree's `Token` leaves. */
  ghost function Leaves<K>(t: StartTokens<K>): set<K>
    decreases t, 1
  {
    match t
    case All => {}
    case Any(cs) => LeavesBefore(cs, |cs|)
    case One(c) => Leaves(c)
    case Token(x) => {x}
  }

  /** The leaves of the alternatives before index `i`. */
  ghost function LeavesBefore<K>(cs: seq<StartTokens<K>>, i: nat): set<K>
    requires i <= |cs|
    decreases Any(cs), 0, i
  {
    if i == 0 then {} else LeavesBefore(cs, i - 1) + Leaves(cs[i - 1])
  }

  lemma {:induction false} LeavesBeforeExists<K>(cs: seq<StartTokens<K>>, k: K, i: nat)
    requires i <= |cs|
    ensures k in LeavesBefore(cs, i) <==> exists j :: 0 <= j < i && k in Leaves(cs[j])
  {
    if i > 0 {
      LeavesBeforeExists(cs, k, i - 1);
    }
  }

  lemma {:induction false} ContainsAnyExists<K>(cs: seq<StartTokens<K>>, k: K, i: nat)
    requires i <= |cs|
    ensures ContainsAny(cs, k, i) <==> exists j :: i <= j < |cs| && Contains(cs[j], k)
    decreases |cs| - i
  {
    if i < |cs| {
      ContainsAnyExists(cs, k, i + 1);
    }
  }

  /** Membership by constructor: `All` holds every kind, `Token(t)` only `t`,
      `Any` a kind some alternative holds, and `One` what its tree holds. */
  lemma ContainsCases<K>(t: StartTokens<K>, k: K)
    ensures t.All? ==> Contains(t, k)
    ensures t.Token? ==> (Contains(t, k) <==> t.kind == k)
    ensures t.Any? ==> (Contains(t, k) <==> exists i :: 0 <= i < |t.alternatives| && Contains(t.alternatives[i], k))
    ensures t.One? ==> (Contains(t, k) <==> Contains(t.inner, k))
  {
    if t.Any? {
      ContainsAnyExists(t.alternatives, k, 0);
    }
  }

  /** A tree contains exactly its leaves, plus everything once it has an `All` leaf. */
  lemma {:induction false} ContainsIsLeavesOrAll<K>(t: StartTokens<K>, k: K)
    ensures Contains(t, k) <==> HasAll(t) || k in Leaves(t)
  {
    match t
    case All =>
    case Token(_) =>
    case One(c) => ContainsIsLeavesOrAll(c, k);
    case Any(cs) =>
      ContainsAnyExists(cs, k, 0);
      LeavesBeforeExists(cs, k, |cs|);
      forall i | 0 <= i < |cs|
        ensures Contains(cs[i], k) <==> HasAll(cs[i]) || k in Leaves(cs[i])
      {
        ContainsIsLeavesOrAll(cs[i], k);
      }
  }

  function Elems<K>(v: seq<K>): set<K>
  {
    set x | x in v
  }

  ghost predicate NoDuplicates<K>(v: seq<K>)
  {
    forall i, j :: 0 <= i < j < |v| ==> v[i] != v[j]
  }

  /** `append_vec`: pushes every `Token` leaf, left to right, that is not already in `v`. */
  method AppendVec<K(==)>(t: StartTokens<K>, v: seq<K>) returns (r: seq<K>)
    ensures v <= r
    ensures NoDuplicates(v) ==> NoDuplicates(r)
    ensures Elems(r) == Elems(v) + Leaves(t)
    decreases t
  {
    match t {
      case Any(cs) =>
        r := v;
        for i := 0 to |cs|
          invariant v <= r
          invariant NoDuplicates(v) ==> NoDuplicates(r)
          invariant Elems(r) == Elems(v) + LeavesBefore(cs, i)
        {
          r := AppendVec(cs[i], r);
        }
      case One(c) =>
        r := AppendVec(c, v);
      case Token(k) =>
        if k !in v {
          r := v + [k];
        } else {
          r := v;
        }
      case All =>
        r := v;
    }
  }

  /** `to_vec`: the flattened, duplicate-free list of the tree's leaves. Every listed kind
      passes `contains`, and without an `All` leaf every kind `contains` accepts is listed. */
  method ToVec<K(==)>(t: StartTokens<K>) returns (r: seq<K>)
    ensures NoDuplicates(r)
    ensures Elems(r) == Leaves(t)
    ensures forall k :: k in r ==> Contains(t, k)
    ensures !HasAll(t) ==> forall k :: Contains(t, k) ==> k in r
  {
    r := AppendVec(t, []);
    forall k
      ensures Contains(t, k) <==> HasAll(t) || k in Leaves(t)
    {
      ContainsIsLeavesOrAll(t, k);
    }
    assert forall k :: k in r <==> k in Elems(r);
  }
}
