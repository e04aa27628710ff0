/**
 * Dictionaries built by assigning `d[k] = v` for a sequence of pairs in order,
 * as `dict(pairs)` and the tool's registration loops do: a later pair with the
 * same key replaces the earlier one.
 */
module Tables {

  /** `base` updated with every pair of `pairs`, first to last. */
  function Table<K, V>(base: map<K, V>, pairs: seq<(K, V)>): map<K, V>
    decreases |pairs|
  {
    if pairs == [] then base else Table(base[pairs[0].0 := pairs[0].1], pairs[1..])
  }

  function KeysOf<K, V>(pairs: seq<(K, V)>): set<K> {
    set i | 0 <= i < |pairs| :: pairs[i].0
  }

  /** Updating with one more pair is one more assignment. */
  lemma {:induction false} TableSnoc<K, V>(base: map<K, V>, pairs: seq<(K, V)>, p: (K, V))
    ensures Table(base, pairs + [p]) == Table(base, pairs)[p.0 := p.1]
    decreases |pairs|
  {
    if pairs == [] {
      assert [] + [p] == [p];
      assert [p][1..] == [];
    } else {
      assert (pairs + [p])[1..] == pairs[1..] + [p];
      TableSnoc(base[pairs[0].0 := pairs[0].1], pairs[1..], p);
    }
  }

  /** The keys are those of the base and those of the pairs, and nothing else. */
  lemma {:induction false} TableKeys<K, V>(base: map<K, V>, pairs: seq<(K, V)>)
    ensures Table(base, pairs).Keys == base.Keys + KeysOf(pairs)
    decreases |pairs|
  {
    if pairs != [] {
      TableKeys(base[pairs[0].0 := pairs[0].1], pairs[1..]);
      assert KeysOf(pairs) == {pairs[0].0} + KeysOf(pairs[1..]) by {
        forall k | k in KeysOf(pairs) ensures k in {pairs[0].0} + KeysOf(pairs[1..]) {
          var i :| 0 <= i < |pairs| && pairs[i].0 == k;
          if i > 0 { assert pairs[1..][i - 1].0 == k; }
        }
        forall k | k in KeysOf(pairs[1..]) ensures k in KeysOf(pairs) {
          var i :| 0 <= i < |pairs[1..]| && pairs[1..][i].0 == k;
          assert pairs[i + 1].0 == k;
        }
      }
    }
  }

  /** Last one wins: a key takes the value of the last pair that has it. */
  lemma {:induction false} TableLastWins<K, V>(base: map<K, V>, pairs: seq<(K, V)>, i: nat)
    requires i < |pairs|
    requires forall j :: i < j < |pairs| ==> pairs[j].0 != pairs[i].0
    ensures pairs[i].0 in Table(base, pairs) && Table(base, pairs)[pairs[i].0] == pairs[i].1
    decreases |pairs|
  {
    if i == 0 {
      TableUntouched(base[pairs[0].0 := pairs[0].1], pairs[1..], pairs[0].0);
    } else {
      TableLastWins(base[pairs[0].0 := pairs[0].1], pairs[1..], i - 1);
    }
  }

  /** A key no pair mentions keeps its value from the base. */
  lemma {:induction false} TableUntouched<K, V>(base: map<K, V>, pairs: seq<(K, V)>, k: K)
    requires k in base
    requires forall j :: 0 <= j < |pairs| ==> pairs[j].0 != k
    ensures k in Table(base, pairs) && Table(base, pairs)[k] == base[k]
    decreases |pairs|
  {
    if pairs != [] {
      TableUntouched(base[pairs[0].0 := pairs[0].1], pairs[1..], k);
    }
  }

  /** When every value is a function of its key, so is every value of the dict. */
  lemma {:induction false} TableFunctional<K, V>(base: map<K, V>, pairs: seq<(K, V)>, valueOf: K -> V)
    requires forall k :: k in base ==> base[k] == valueOf(k)
    requires forall j :: 0 <= j < |pairs| ==> pairs[j].1 == valueOf(pairs[j].0)
    ensures forall k :: k in Table(base, pairs) ==> Table(base, pairs)[k] == valueOf(k)
    decreases |pairs|
  {
    if pairs != [] {
      forall j | 0 <= j < |pairs[1..]| ensures pairs[1..][j].1 == valueOf(pairs[1..][j].0) {
        assert pairs[1..][j] == pairs[j + 1];
      }
      TableFunctional(base[pairs[0].0 := pairs[0].1], pairs[1..], valueOf);
    }
  }

  /**
   * The order in which a dict built this way lists its keys: a key takes its place
   * when it is first assigned, and assigning it again keeps that place.
   */
  function Order<K(==), V>(base: seq<K>, pairs: seq<(K, V)>): seq<K>
    decreases |pairs|
  {
    if pairs == [] then base
    else Order(if pairs[0].0 in base then base else base + [pairs[0].0], pairs[1..])
  }

  lemma {:induction false} OrderSnoc<K, V>(base: seq<K>, pairs: seq<(K, V)>, p: (K, V))
    ensures Order(base, pairs + [p]) ==
      var o := Order(base, pairs); if p.0 in o then o else o + [p.0]
    decreases |pairs|
  {
    if pairs == [] {
      assert [] + [p] == [p];
      assert [p][1..] == [];
    } else {
      assert (pairs + [p])[1..] == pairs[1..] + [p];
      OrderSnoc(if pairs[0].0 in base then base else base + [pairs[0].0], pairs[1..], p);
    }
  }

  predicate NoRepeats<K(==)>(s: seq<K>) {
    forall i, j :: 0 <= i < j < |s| ==> s[i] != s[j]
  }

  /** The order lists every key of the dict once: those of the base, then the new ones. */
  lemma {:induction false} OrderListsKeys<K, V>(base: seq<K>, pairs: seq<(K, V)>)
    requires NoRepeats(base)
    ensures NoRepeats(Order(base, pairs))
    ensures forall k :: k in Order(base, pairs) <==> k in base || k in KeysOf(pairs)
    decreases |pairs|
  {
    if pairs != [] {
      var next := if pairs[0].0 in base then base else base + [pairs[0].0];
      OrderListsKeys(next, pairs[1..]);
      forall k | k in KeysOf(pairs) ensures k == pairs[0].0 || k in KeysOf(pairs[1..]) {
        var i :| 0 <= i < |pairs| && pairs[i].0 == k;
        if i > 0 { assert pairs[1..][i - 1].0 == k; }
      }
      forall k | k in KeysOf(pairs[1..]) ensures k in KeysOf(pairs) {
        var i :| 0 <= i < |pairs[1..]| && pairs[1..][i].0 == k;
        assert pairs[i + 1].0 == k;
      }
      assert pairs[0].0 in KeysOf(pairs);
    }
  }

  /** `[f(x) for x in xs]`. */
  function MapSeq<A, B>(xs: seq<A>, f: A -> B): (r: seq<B>)
    ensures |r| == |xs| && forall k :: 0 <= k < |xs| ==> r[k] == f(xs[k])
  {
    seq(|xs|, k requires 0 <= k < |xs| => f(xs[k]))
  }

  /** The keys of mapped pairs are the first components of the images. */
  lemma KeysOfMapSeq<A, K, V>(xs: seq<A>, f: A -> (K, V))
    ensures KeysOf(MapSeq(xs, f)) == set k | 0 <= k < |xs| :: f(xs[k]).0
  {
    var e := MapSeq(xs, f);
    forall x | x in KeysOf(e) ensures x in set k | 0 <= k < |xs| :: f(xs[k]).0 {
      var k :| 0 <= k < |e| && e[k].0 == x;
      assert f(xs[k]).0 == x;
    }
  }

  /** Mapping one more element of a prefix appends its image. */
  lemma MapSeqSnoc<A, B>(xs: seq<A>, i: nat, f: A -> B)
    requires i < |xs|
    ensures MapSeq(xs[..i + 1], f) == MapSeq(xs[..i], f) + [f(xs[i])]
  {
    var a, b := xs[..i + 1], xs[..i];
    assert forall k :: 0 <= k < i ==> a[k] == b[k];
  }
}
