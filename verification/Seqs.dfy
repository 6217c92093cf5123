/** General facts about sequences. */
module Seqs {
  lemma SnocPrefix<T>(s: seq<T>, x: T)
    ensures (s + [x])[..|s|] == s
  {
  }

  lemma PrefixSnoc<T>(s: seq<T>, k: nat)
    requires k < |s|
    ensures s[..k + 1] == s[..k] + [s[k]]
  {
  }

  lemma AppendSnoc<T>(a: seq<T>, b: seq<T>)
    requires b != []
    ensures a + b == (a + b[..|b| - 1]) + [b[|b| - 1]]
  {
  }

  lemma Assoc<T>(a: seq<T>, b: seq<T>, c: seq<T>)
    ensures (a + b) + c == a + (b + c)
  {
  }

  lemma Unsnoc<T>(s: seq<T>)
    requires s != []
    ensures s == s[..|s| - 1] + [s[|s| - 1]]
  {
  }

  lemma PrefixOfPrefix<T>(s: seq<T>, i: nat, j: nat)
    requires i <= j <= |s|
    ensures s[..j][..i] == s[..i]
  {
  }

  /** The members of a sequence of sequences, end to end. */
  function Flatten<T>(ss: seq<seq<T>>): seq<T> {
    if ss == [] then [] else Flatten(ss[..|ss| - 1]) + ss[|ss| - 1]
  }

  lemma FlattenSnoc<T>(ss: seq<seq<T>>, s: seq<T>)
    ensures Flatten(ss + [s]) == Flatten(ss) + s
  {
    SnocPrefix(ss, s);
  }

  lemma {:induction false} InFlatten<T>(ss: seq<seq<T>>, i: nat, x: T)
    requires i < |ss| && x in ss[i]
    ensures x in Flatten(ss)
  {
    if i < |ss| - 1 {
      InFlatten(ss[..|ss| - 1], i, x);
    }
  }

  // ---------- picking out members ----------

  /** The places, in order, of all the members with the property and of no other. */
  ghost predicate Places<T>(s: seq<T>, p: T -> bool, ks: seq<nat>) {
    && (forall i, j :: 0 <= i < j < |ks| ==> ks[i] < ks[j])
    && (forall i :: 0 <= i < |ks| ==> ks[i] < |s| && p(s[ks[i]]))
    && (forall k :: 0 <= k < |s| && p(s[k]) ==> k in ks)
  }

  /** What stands at these places, one for one. */
  ghost predicate Stand<T, U>(s: seq<T>, same: (T, U) -> bool, ks: seq<nat>, out: seq<U>) {
    |out| == |ks| && forall i :: 0 <= i < |ks| ==> ks[i] < |s| && same(s[ks[i]], out[i])
  }

  /** `out` is made of the members of `s` that have the property, all of them, in order. */
  ghost predicate Picked<T, U>(s: seq<T>, p: T -> bool, same: (T, U) -> bool, out: seq<U>) {
    exists ks: seq<nat> :: Places(s, p, ks) && Stand(s, same, ks, out)
  }

  lemma NonePicked<T, U>(p: T -> bool, same: (T, U) -> bool)
    ensures Picked([], p, same, [])
  {
    var ks: seq<nat> := [];
    assert Places([], p, ks) && Stand([], same, ks, []);
  }

  lemma PlacesSkip<T>(s: seq<T>, p: T -> bool, x: T, ks: seq<nat>)
    requires Places(s, p, ks) && !p(x)
    ensures Places(s + [x], p, ks)
  {
    var t := s + [x];
    forall k | 0 <= k < |t| && p(t[k]) ensures k in ks {
      assert k < |s| && t[k] == s[k];
    }
  }

  lemma PlacesTake<T>(s: seq<T>, p: T -> bool, x: T, ks: seq<nat>)
    requires Places(s, p, ks) && p(x)
    ensures Places(s + [x], p, ks + [|s|])
  {
    var t, js := s + [x], ks + [|s|];
    forall k | 0 <= k < |t| && p(t[k]) ensures k in js {
      if k < |s| {
        assert p(s[k]);
        assert k in ks;
      } else {
        assert js[|ks|] == k;
      }
    }
  }

  lemma StandSkip<T, U>(s: seq<T>, same: (T, U) -> bool, ks: seq<nat>, out: seq<U>, x: T)
    requires Stand(s, same, ks, out)
    ensures Stand(s + [x], same, ks, out)
  {
    forall i | 0 <= i < |ks| ensures ks[i] < |s + [x]| && same((s + [x])[ks[i]], out[i]) {
      assert same(s[ks[i]], out[i]);
    }
  }

  lemma StandTake<T, U>(s: seq<T>, same: (T, U) -> bool, ks: seq<nat>, out: seq<U>, x: T, y: U)
    requires Stand(s, same, ks, out) && same(x, y)
    ensures Stand(s + [x], same, ks + [|s|], out + [y])
  {
    var t, js, all := s + [x], ks + [|s|], out + [y];
    forall i | 0 <= i < |js| ensures js[i] < |t| && same(t[js[i]], all[i]) {
      if i < |ks| {
        assert same(s[ks[i]], out[i]);
      }
    }
  }

  lemma PickedSkip<T, U>(s: seq<T>, p: T -> bool, same: (T, U) -> bool, out: seq<U>, x: T)
    requires Picked(s, p, same, out) && !p(x)
    ensures Picked(s + [x], p, same, out)
  {
    var ks: seq<nat> :| Places(s, p, ks) && Stand(s, same, ks, out);
    PlacesSkip(s, p, x, ks);
    StandSkip(s, same, ks, out, x);
  }

  lemma PickedTake<T, U>(s: seq<T>, p: T -> bool, same: (T, U) -> bool, out: seq<U>, x: T, y: U)
    requires Picked(s, p, same, out) && p(x) && same(x, y)
    ensures Picked(s + [x], p, same, out + [y])
  {
    var ks: seq<nat> :| Places(s, p, ks) && Stand(s, same, ks, out);
    PlacesTake(s, p, x, ks);
    StandTake(s, same, ks, out, x, y);
  }
}
